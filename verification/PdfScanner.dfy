/**
  The line scanner over the text of a laboratory PDF: which lines an extracted analyte came
  from.  What a line means is left to a recognizer; the control flow and the offsets are exact.
  Text is a sequence of bytes.
*/
module PdfScanner {
  import opened Wrappers

  type Bytes = string

  datatype Page = Page(number: int, text: Bytes)

  /** The pattern tests on lines, and the readings taken from them. */
  datatype Recognizer<!C, R> = Recognizer(
    trim: Bytes -> Bytes,
    sampleIdentifier: Bytes -> string,
    header: Bytes -> Option<C>,
    isReferenceSection: Bytes -> bool,
    hasUnit: Bytes -> bool,
    hasDetectionLimit: Bytes -> bool,
    canonicalAnalyte: Bytes -> string,
    tableReading: (string, Bytes, C) -> Option<R>,
    lineReading: (string, Bytes, Option<C>) -> R,
    linesReading: (string, seq<Bytes>) -> R)

  datatype Analyte<R> = Analyte(canonical: string, reading: R, page: int, excerpt: Bytes, start: int, end: int)

  datatype Pending = Pending(canonical: string, lines: seq<Bytes>, start: int, unitSeen: bool)

  // ---------- text and lines ----------

  /** `strings.Split(text, "\n")` */
  function Split(text: Bytes): (lines: seq<Bytes>)
    ensures |lines| >= 1
  {
    if |text| == 0 then [""]
    else
      var front := Split(text[..|text| - 1]);
      if text[|text| - 1] == '\n' then front + [""]
      else front[..|front| - 1] + [front[|front| - 1] + [text[|text| - 1]]]
  }

  function Join(parts: seq<Bytes>, separator: Bytes): Bytes {
    if |parts| == 0 then ""
    else if |parts| == 1 then parts[0]
    else Join(parts[..|parts| - 1], separator) + separator + parts[|parts| - 1]
  }

  predicate IsLine(line: Bytes) { '\n' !in line }

  /** Splitting loses nothing. */
  lemma {:induction false} SplitJoins(text: Bytes)
    ensures Join(Split(text), "\n") == text
  {
    if |text| > 0 {
      var last := text[|text| - 1];
      var front := Split(text[..|text| - 1]);
      SplitJoins(text[..|text| - 1]);
      assert text == text[..|text| - 1] + [last];
      var parts := Split(text);
      hide Split;
      if last == '\n' {
        assert parts[..|front|] == front;
      } else {
        JoinGrows(front, last);
      }
    }
  }

  /** The parts hold no line break. */
  lemma {:induction false} SplitIsLines(text: Bytes)
    ensures forall i :: 0 <= i < |Split(text)| ==> IsLine(Split(text)[i])
  {
    if |text| > 0 { SplitIsLines(text[..|text| - 1]); }
  }

  lemma {:induction false} JoinGrows(parts: seq<Bytes>, c: char)
    requires |parts| > 0
    ensures Join(parts[..|parts| - 1] + [parts[|parts| - 1] + [c]], "\n") == Join(parts, "\n") + [c]
  {
    var n := |parts| - 1;
    var more := parts[..n] + [parts[n] + [c]];
    assert more[..n] == parts[..n];
  }

  lemma {:induction false} SplitLine(line: Bytes)
    requires IsLine(line)
    ensures Split(line) == [line]
  {
    if |line| > 0 {
      SplitLine(line[..|line| - 1]);
      assert line == line[..|line| - 1] + [line[|line| - 1]];
    }
  }

  lemma {:induction false} SplitConcat(a: Bytes, line: Bytes)
    requires IsLine(line)
    ensures Split(a + "\n" + line) == Split(a) + [line]
  {
    var text := a + "\n" + line;
    if |line| == 0 {
      assert text == a + "\n" && text[..|text| - 1] == a;
    } else {
      var front := line[..|line| - 1];
      SplitConcat(a, front);
      assert text[..|text| - 1] == a + "\n" + front;
      assert line == front + [line[|line| - 1]];
    }
  }

  /** Joining lines and splitting again gives the lines back. */
  lemma {:induction false} SplitOfJoin(lines: seq<Bytes>)
    requires |lines| > 0 && forall i :: 0 <= i < |lines| ==> IsLine(lines[i])
    ensures Split(Join(lines, "\n")) == lines
  {
    hide Split, IsLine, Join;
    var n := |lines| - 1;
    JoinLast(lines);
    if n == 0 {
      SplitLine(lines[0]);
      assert lines == [lines[0]];
    } else {
      SplitOfJoin(lines[..n]);
      SplitConcat(Join(lines[..n], "\n"), lines[n]);
      assert lines == lines[..n] + [lines[n]];
    }
  }

  lemma {:induction false} JoinLast(lines: seq<Bytes>)
    requires |lines| > 0
    ensures var n := |lines| - 1;
            Join(lines, "\n") == if n == 0 then lines[0] else Join(lines[..n], "\n") + "\n" + lines[n]
  {
  }

  /** Where line i begins. */
  function LineStart(lines: seq<Bytes>, i: nat): nat
    requires i <= |lines|
  {
    if i == 0 then 0 else LineStart(lines, i - 1) + |lines[i - 1]| + 1
  }

  lemma {:induction false} LineStartOfPrefix(lines: seq<Bytes>, k: nat, i: nat)
    requires i <= k <= |lines|
    ensures LineStart(lines[..k], i) == LineStart(lines, i)
  {
    if i > 0 { LineStartOfPrefix(lines, k, i - 1); }
  }

  lemma {:induction false} JoinLength(lines: seq<Bytes>)
    requires |lines| > 0
    ensures |Join(lines, "\n")| == LineStart(lines, |lines|) - 1
  {
    var n := |lines| - 1;
    LineStartOfPrefix(lines, n, n);
    if n > 0 { JoinLength(lines[..n]); }
  }

  lemma {:induction false} JoinAppend(a: seq<Bytes>, b: seq<Bytes>)
    requires |a| > 0 && |b| > 0
    ensures Join(a + b, "\n") == Join(a, "\n") + "\n" + Join(b, "\n")
  {
    var n := |b| - 1;
    assert (a + b)[..|a + b| - 1] == a + b[..n];
    if n == 0 {
      assert a + b[..n] == a;
    } else {
      JoinAppend(a, b[..n]);
    }
  }

  /** The text up to and including the line break before line i. */
  function Before(lines: seq<Bytes>, i: nat): Bytes
    requires i <= |lines|
  {
    if i == 0 then "" else Join(lines[..i], "\n") + "\n"
  }

  lemma {:induction false} BeforeLine(lines: seq<Bytes>, i: nat)
    requires i < |lines|
    ensures |Before(lines, i)| == LineStart(lines, i)
    ensures Join(lines, "\n") == Before(lines, i) + Join(lines[i..], "\n")
    ensures i > 0 ==> Before(lines, i)[|Before(lines, i)| - 1] == '\n'
  {
    if i == 0 {
      assert lines[0..] == lines;
    } else {
      JoinLength(lines[..i]);
      LineStartOfPrefix(lines, i, i);
      assert lines == lines[..i] + lines[i..];
      JoinAppend(lines[..i], lines[i..]);
    }
  }

  /** Where line i ends. */
  function LineEnd(lines: seq<Bytes>, i: nat): nat
    requires i < |lines|
  {
    LineStart(lines, i) + |lines[i]|
  }

  lemma {:induction false} AfterLine(lines: seq<Bytes>, i: nat)
    requires i < |lines|
    ensures |Join(lines[..i + 1], "\n")| == LineEnd(lines, i)
    ensures Join(lines, "\n") ==
            Join(lines[..i + 1], "\n") + if i + 1 == |lines| then "" else "\n" + Join(lines[i + 1..], "\n")
  {
    JoinLength(lines[..i + 1]);
    LineStartOfPrefix(lines, i + 1, i + 1);
    if i + 1 == |lines| {
      assert lines[..i + 1] == lines;
    } else {
      assert lines == lines[..i + 1] + lines[i + 1..];
      JoinAppend(lines[..i + 1], lines[i + 1..]);
    }
  }

  predicate LineBoundaries(text: Bytes, start: int, end: int) {
    && 0 <= start <= end <= |text|
    && (start == 0 || text[start - 1] == '\n')
    && (end == |text| || text[end] == '\n')
  }

  /** Lines first to last, as a slice of the joined text. */
  lemma {:induction false} SliceOfJoin(lines: seq<Bytes>, first: nat, last: nat)
    requires first <= last < |lines|
    ensures var text := Join(lines, "\n");
            && LineBoundaries(text, LineStart(lines, first), LineEnd(lines, last))
            && text[LineStart(lines, first)..LineEnd(lines, last)] == Join(lines[first..last + 1], "\n")
  {
    hide Join, Before, LineStart, LineEnd;
    var text := Join(lines, "\n");
    AfterLine(lines, last);
    var front := lines[..last + 1];
    BeforeLine(front, first);
    LineStartOfPrefix(lines, last + 1, first);
    assert front[first..] == lines[first..last + 1];
    assert text[..LineEnd(lines, last)] == Join(front, "\n");
  }

  // ---------- provenance ----------

  /** The trimmed lines that are not blank. */
  function Content(trim: Bytes -> Bytes, lines: seq<Bytes>): seq<Bytes> {
    if |lines| == 0 then []
    else
      var last := trim(lines[|lines| - 1]);
      Content(trim, lines[..|lines| - 1]) + (if last == "" then [] else [last])
  }

  /** The sample identifiers met, in order. */
  function SampleIds<C, R>(r: Recognizer<C, R>, content: seq<Bytes>): seq<string> {
    if |content| == 0 then []
    else
      var id := r.sampleIdentifier(content[|content| - 1]);
      SampleIds(r, content[..|content| - 1]) + (if id == "" then [] else [id])
  }

  /** The identifiers met before line i of page p. */
  function SamplesBefore<C, R>(r: Recognizer<C, R>, pages: seq<Page>, p: nat, i: nat): seq<string>
    requires p < |pages| && i <= |Split(pages[p].text)|
    decreases p
  {
    (if p == 0 then [] else SamplesBefore(r, pages, p - 1, |Split(pages[p - 1].text)|))
    + SampleIds(r, Content(r.trim, Split(pages[p].text)[..i]))
  }

  /** No sample named yet, or the last one named is the first. */
  predicate Selected(ids: seq<string>) { |ids| == 0 || ids[|ids| - 1] == ids[0] }

  datatype Place = Place(page: nat, first: nat, last: nat)

  predicate Later(a: Place, b: Place) { a.page < b.page || (a.page == b.page && a.last < b.first) }

  /** The analyte was read from whole lines of one page, of which it quotes exactly the content. */
  predicate ReadFrom<C, R>(r: Recognizer<C, R>, pages: seq<Page>, a: Analyte<R>, q: Place) {
    && q.page < |pages|
    && var lines := Split(pages[q.page].text);
       && q.first <= q.last < |lines|
       && a.page == pages[q.page].number
       && a.start == LineStart(lines, q.first) && a.end == LineEnd(lines, q.last)
       && a.excerpt == Join(Content(r.trim, lines[q.first..q.last + 1]), " ")
       && r.trim(lines[q.first]) != "" && r.trim(lines[q.last]) != ""
       && a.canonical == r.canonicalAnalyte(r.trim(lines[q.first])) && a.canonical != ""
       && Selected(SamplesBefore(r, pages, q.page, q.last + 1))
       && SamplesBefore(r, pages, q.page, q.last + 1) == SamplesBefore(r, pages, q.page, q.first + 1)
  }

  /** What the source bounds promise about the page text itself. */
  lemma {:induction false} BoundsAreExact<C, R>(r: Recognizer<C, R>, pages: seq<Page>, a: Analyte<R>, q: Place)
    requires ReadFrom(r, pages, a, q)
    ensures var text := pages[q.page].text;
            && LineBoundaries(text, a.start, a.end)
            && a.excerpt == Join(Content(r.trim, Split(text[a.start..a.end])), " ")
  {
    hide Content, SamplesBefore, Selected, LineStart, LineEnd, Join, Split;
    var text := pages[q.page].text;
    var lines := Split(text);
    SplitJoins(text);
    SplitIsLines(text);
    SliceOfJoin(lines, q.first, q.last);
    SplitOfJoin(lines[q.first..q.last + 1]);
  }

  // ---------- what a page says ----------

  function LineCount(pages: seq<Page>, p: nat): (n: nat)
    requires p < |pages|
    ensures n == |Split(pages[p].text)|
  {
    |Split(pages[p].text)|
  }

  /** Line i of page p. */
  function LineAt(pages: seq<Page>, p: nat, i: nat): Bytes
    requires p < |pages| && i < LineCount(pages, p)
  {
    Split(pages[p].text)[i]
  }

  function Trimmed<C, R>(r: Recognizer<C, R>, pages: seq<Page>, p: nat, i: nat): Bytes
    requires p < |pages| && i < LineCount(pages, p)
  {
    r.trim(LineAt(pages, p, i))
  }

  /** What is quoted of lines first to last. */
  function ContentOf<C, R>(r: Recognizer<C, R>, pages: seq<Page>, p: nat, first: nat, last: nat): seq<Bytes>
    requires p < |pages| && first <= last < LineCount(pages, p)
  {
    Content(r.trim, Split(pages[p].text)[first..last + 1])
  }

  predicate NamesSample<C, R>(r: Recognizer<C, R>, pages: seq<Page>, p: nat, i: nat)
    requires p < |pages| && i < LineCount(pages, p)
  {
    Trimmed(r, pages, p, i) != "" && r.sampleIdentifier(Trimmed(r, pages, p, i)) != ""
  }

  /** Line i of page p is not blank, and the sample it belongs to is the selected one. */
  predicate LiveLine<C, R>(r: Recognizer<C, R>, pages: seq<Page>, p: nat, i: nat)
    requires p < |pages| && i < LineCount(pages, p)
  {
    Trimmed(r, pages, p, i) != "" && Selected(SamplesBefore(r, pages, p, i + 1))
  }

  /** A reference section of the selected sample begins on page p before line i. */
  predicate SkippedBefore<C, R>(r: Recognizer<C, R>, pages: seq<Page>, p: nat, i: nat)
    requires p < |pages| && i <= LineCount(pages, p)
  {
    i > 0 && (SkippedBefore(r, pages, p, i - 1)
              || (LiveLine(r, pages, p, i - 1) && r.isReferenceSection(Trimmed(r, pages, p, i - 1))))
  }

  /** The last table header of the selected sample before line i of page p. */
  function ColumnsBefore<C, R>(r: Recognizer<C, R>, pages: seq<Page>, p: nat, i: nat): Option<C>
    requires p < |pages| && i <= LineCount(pages, p)
    decreases p, i
  {
    if i > 0 then
      if LiveLine(r, pages, p, i - 1) && r.header(LineAt(pages, p, i - 1)).Some? then r.header(LineAt(pages, p, i - 1))
      else ColumnsBefore(r, pages, p, i - 1)
    else if p > 0 then ColumnsBefore(r, pages, p - 1, LineCount(pages, p - 1))
    else None
  }

  /** A line that is read: of the selected sample, and not in a reference section. */
  predicate ScannedLine<C, R>(r: Recognizer<C, R>, pages: seq<Page>, p: nat, i: nat)
    requires p < |pages| && i < LineCount(pages, p)
  {
    LiveLine(r, pages, p, i) && !SkippedBefore(r, pages, p, i + 1)
  }

  predicate NamesAnalyte<C, R>(r: Recognizer<C, R>, pages: seq<Page>, p: nat, i: nat)
    requires p < |pages| && i < LineCount(pages, p)
  {
    ScannedLine(r, pages, p, i) && r.canonicalAnalyte(Trimmed(r, pages, p, i)) != ""
  }

  /** The reading of a line on its own: from its table columns, or from the text when it has a unit. */
  function OwnReading<C, R>(r: Recognizer<C, R>, pages: seq<Page>, p: nat, i: nat): Option<R>
    requires p < |pages| && i < LineCount(pages, p)
  {
    var trimmed, columns := Trimmed(r, pages, p, i), ColumnsBefore(r, pages, p, i + 1);
    var canonical := r.canonicalAnalyte(trimmed);
    var table := if columns.Some? then r.tableReading(canonical, LineAt(pages, p, i), columns.value) else None;
    if table.Some? then table
    else if r.hasUnit(trimmed) then Some(r.lineReading(canonical, trimmed, columns))
    else None
  }

  // ---------- results spread over several lines ----------

  /** How a result started on an earlier line ends: with its last line, or given up where reading resumes. */
  datatype Outcome = Closed(last: nat) | Dropped(resume: nat)

  /** The line ends a started result without belonging to it. */
  predicate Breaks<C, R>(r: Recognizer<C, R>, pages: seq<Page>, p: nat, j: nat)
    requires p < |pages| && j < LineCount(pages, p)
  {
    NamesSample(r, pages, p, j) || SkippedBefore(r, pages, p, j + 1)
  }

  /**
    Lines from j on of a result started at line `first`.  The result ends with the line of its unit
    if its detection limit was met by then, and otherwise with the line after that; it is given up
    after six lines without a unit.
  */
  function Follow<C, R>(r: Recognizer<C, R>, pages: seq<Page>, p: nat, first: nat, j: nat,
                        unitSeen: bool): (outcome: Outcome)
    requires p < |pages| && first < j <= LineCount(pages, p)
    ensures if outcome.Closed? then j <= outcome.last < LineCount(pages, p)
            else j <= outcome.resume <= LineCount(pages, p)
    decreases LineCount(pages, p) - j
  {
    if j == LineCount(pages, p) then Dropped(j)
    else if Trimmed(r, pages, p, j) == "" then Follow(r, pages, p, first, j + 1, unitSeen)
    else if Breaks(r, pages, p, j) then Dropped(j)
    else if unitSeen then Closed(j)
    else if r.hasUnit(Trimmed(r, pages, p, j)) then
      if r.hasDetectionLimit(Join(ContentOf(r, pages, p, first, j), " ")) then Closed(j)
      else Follow(r, pages, p, first, j + 1, true)
    else if |ContentOf(r, pages, p, first, j)| < 6 then Follow(r, pages, p, first, j + 1, false)
    else Dropped(j)
  }

  /** The lines a result was read from, and what was read. */
  datatype Block<R> = Block(at: Place, reading: R)

  /** The result read from lines first to last. */
  function Spread<C, R>(r: Recognizer<C, R>, pages: seq<Page>, p: nat, first: nat, last: nat): Block<R>
    requires p < |pages| && first <= last < LineCount(pages, p)
  {
    Block(Place(p, first, last),
          r.linesReading(r.canonicalAnalyte(Trimmed(r, pages, p, first)), ContentOf(r, pages, p, first, last)))
  }

  /** The result that starts at line `first`, if it is closed, and all after it. */
  function Finish<C, R>(r: Recognizer<C, R>, pages: seq<Page>, p: nat, first: nat, outcome: Outcome): seq<Block<R>>
    requires p < |pages| && first < LineCount(pages, p)
    requires if outcome.Closed? then first < outcome.last < LineCount(pages, p)
             else first < outcome.resume <= LineCount(pages, p)
    decreases LineCount(pages, p) - first, 0
  {
    match outcome
    case Closed(last) => [Spread(r, pages, p, first, last)] + Blocks(r, pages, p, last + 1)
    case Dropped(resume) => Blocks(r, pages, p, resume)
  }

  /** The results of page p from line i on, when none is started. */
  function Blocks<C, R>(r: Recognizer<C, R>, pages: seq<Page>, p: nat, i: nat): seq<Block<R>>
    requires p < |pages| && i <= LineCount(pages, p)
    decreases LineCount(pages, p) - i, 1
  {
    if i == LineCount(pages, p) then []
    else if !NamesAnalyte(r, pages, p, i) then Blocks(r, pages, p, i + 1)
    else
      match OwnReading(r, pages, p, i)
      case Some(reading) => [Block(Place(p, i, i), reading)] + Blocks(r, pages, p, i + 1)
      case None => Finish(r, pages, p, i, Follow(r, pages, p, i, i + 1, false))
  }

  /** The results of the pages before page p. */
  function BlocksBefore<C, R>(r: Recognizer<C, R>, pages: seq<Page>, p: nat): seq<Block<R>>
    requires p <= |pages|
  {
    if p == 0 then [] else BlocksBefore(r, pages, p - 1) + Blocks(r, pages, p - 1, 0)
  }

  predicate InRange(pages: seq<Page>, q: Place) {
    q.page < |pages| && q.first <= q.last < LineCount(pages, q.page)
  }

  /** The result with its source: page, bounds and quotation. */
  function AnalyteOf<C, R>(r: Recognizer<C, R>, pages: seq<Page>, block: Block<R>): Analyte<R>
    requires InRange(pages, block.at)
  {
    var q := block.at;
    var lines := Split(pages[q.page].text);
    Analyte(r.canonicalAnalyte(r.trim(lines[q.first])), block.reading, pages[q.page].number,
            Join(ContentOf(r, pages, q.page, q.first, q.last), " "), LineStart(lines, q.first), LineEnd(lines, q.last))
  }

  ghost predicate AllInRange<R>(pages: seq<Page>, blocks: seq<Block<R>>) {
    forall k :: 0 <= k < |blocks| ==> InRange(pages, blocks[k].at)
  }

  /** The analytes of a draft, given its results. */
  ghost predicate Quotes<C, R>(r: Recognizer<C, R>, pages: seq<Page>, analytes: seq<Analyte<R>>,
                               blocks: seq<Block<R>>) {
    && |analytes| == |blocks| && AllInRange(pages, blocks)
    && forall k :: 0 <= k < |blocks| ==> analytes[k] == AnalyteOf(r, pages, blocks[k])
  }

  // ---------- provenance of every result ----------

  lemma {:induction false} ContentStep(trim: Bytes -> Bytes, lines: seq<Bytes>, first: nat, i: nat)
    requires first <= i < |lines|
    ensures Content(trim, lines[first..i + 1]) ==
            Content(trim, lines[first..i]) + (if trim(lines[i]) == "" then [] else [trim(lines[i])])
  {
    assert lines[first..i + 1][..i - first] == lines[first..i];
  }

  lemma {:induction false} SampleIdsStep<C, R>(r: Recognizer<C, R>, content: seq<Bytes>, x: Bytes)
    ensures SampleIds(r, content + [x]) == SampleIds(r, content)
            + (if r.sampleIdentifier(x) == "" then [] else [r.sampleIdentifier(x)])
  {
    assert (content + [x])[..|content|] == content;
  }

  function EarlierSamples<C, R>(r: Recognizer<C, R>, pages: seq<Page>, p: nat): seq<string>
    requires p < |pages|
  {
    if p == 0 then [] else SamplesBefore(r, pages, p - 1, |Split(pages[p - 1].text)|)
  }

  lemma {:induction false} SamplesUnfold<C, R>(r: Recognizer<C, R>, pages: seq<Page>, p: nat, i: nat)
    requires p < |pages| && i <= |Split(pages[p].text)|
    ensures SamplesBefore(r, pages, p, i) == EarlierSamples(r, pages, p)
            + SampleIds(r, Content(r.trim, Split(pages[p].text)[..i]))
  {
    hide Split, Content, SampleIds;
  }

  /** What one more line does to the identifiers met. */
  lemma {:induction false} SamplesStep<C, R>(r: Recognizer<C, R>, pages: seq<Page>, p: nat, i: nat)
    requires p < |pages| && i < LineCount(pages, p)
    ensures SamplesBefore(r, pages, p, i + 1) ==
            SamplesBefore(r, pages, p, i)
            + (if NamesSample(r, pages, p, i) then [r.sampleIdentifier(Trimmed(r, pages, p, i))] else [])
  {
    hide *;
    var lines := Split(pages[p].text);
    LineIs(r, pages, p, i);
    ContentStep(r.trim, lines, 0, i);
    assert lines[0..i] == lines[..i] && lines[0..i + 1] == lines[..i + 1];
    SampleIdsStep(r, Content(r.trim, lines[..i]), r.trim(lines[i]));
    SamplesUnfold(r, pages, p, i);
    SamplesUnfold(r, pages, p, i + 1);
    assert Content(r.trim, lines[..i]) + [] == Content(r.trim, lines[..i]);
  }

  lemma {:induction false} LineIs<C, R>(r: Recognizer<C, R>, pages: seq<Page>, p: nat, i: nat)
    requires p < |pages| && i < LineCount(pages, p)
    ensures Trimmed(r, pages, p, i) == r.trim(Split(pages[p].text)[i])
    ensures NamesSample(r, pages, p, i) <==>
              Trimmed(r, pages, p, i) != "" && r.sampleIdentifier(Trimmed(r, pages, p, i)) != ""
  {
    hide Split;
  }

  /** Lines after `first` up to j that name no sample. */
  ghost predicate SameSample<C, R>(r: Recognizer<C, R>, pages: seq<Page>, p: nat, first: nat, j: nat)
    requires p < |pages| && first < LineCount(pages, p) && j <= LineCount(pages, p)
  {
    SamplesBefore(r, pages, p, j) == SamplesBefore(r, pages, p, first + 1)
  }

  lemma {:induction false} SameSampleMore<C, R>(r: Recognizer<C, R>, pages: seq<Page>, p: nat, first: nat, j: nat)
    requires p < |pages| && first < LineCount(pages, p) && j < LineCount(pages, p)
    requires SameSample(r, pages, p, first, j) && !NamesSample(r, pages, p, j)
    ensures SameSample(r, pages, p, first, j + 1)
  {
    SamplesStep(r, pages, p, j);
    hide SamplesBefore, NamesSample, LineCount;
    assert SamplesBefore(r, pages, p, j) + [] == SamplesBefore(r, pages, p, j);
  }

  /** The last line of a closed result is not blank, and no sample was named since its first. */
  lemma {:induction false} ClosedIsWhole<C, R>(r: Recognizer<C, R>, pages: seq<Page>, p: nat, first: nat, j: nat,
                                               unitSeen: bool)
    requires p < |pages| && first < j <= LineCount(pages, p) && SameSample(r, pages, p, first, j)
    ensures var outcome := Follow(r, pages, p, first, j, unitSeen);
            outcome.Closed? ==>
                Trimmed(r, pages, p, outcome.last) != "" && SameSample(r, pages, p, first, outcome.last + 1)
    decreases LineCount(pages, p) - j
  {
    hide SameSample, Trimmed, SkippedBefore, LineCount, Join, ContentOf;
    if j < LineCount(pages, p) && !(Trimmed(r, pages, p, j) != "" && Breaks(r, pages, p, j)) {
      SameSampleMore(r, pages, p, first, j);
      if Follow(r, pages, p, first, j, unitSeen) != Closed(j) && Follow(r, pages, p, first, j, unitSeen) != Dropped(j) {
        ClosedIsWhole(r, pages, p, first, j + 1, unitSeen
                      || (Trimmed(r, pages, p, j) != "" && r.hasUnit(Trimmed(r, pages, p, j))));
      }
    }
  }

  lemma {:induction false} SingleLineContent(trim: Bytes -> Bytes, lines: seq<Bytes>, i: nat)
    requires i < |lines| && trim(lines[i]) != ""
    ensures Content(trim, lines[i..i + 1]) == [trim(lines[i])]
    ensures Join([trim(lines[i])], " ") == trim(lines[i])
  {
    assert lines[i..i + 1] == [lines[i]];
    assert [lines[i]][..0] == [];
  }

  /** A result at lines of the selected sample, with a name on its first. */
  lemma {:induction false} BlockIsRead<C, R>(r: Recognizer<C, R>, pages: seq<Page>, block: Block<R>)
    requires InRange(pages, block.at)
    requires var q := block.at;
             && NamesAnalyte(r, pages, q.page, q.first) && Trimmed(r, pages, q.page, q.last) != ""
             && SameSample(r, pages, q.page, q.first, q.last + 1)
    ensures ReadFrom(r, pages, AnalyteOf(r, pages, block), block.at)
  {
    hide Split, Content, SamplesBefore, LineStart, LineEnd, Join, Selected, SkippedBefore;
  }

  ghost predicate AllRead<C, R>(r: Recognizer<C, R>, pages: seq<Page>, blocks: seq<Block<R>>) {
    && AllInRange(pages, blocks)
    && (forall k :: 0 <= k < |blocks| ==> ReadFrom(r, pages, AnalyteOf(r, pages, blocks[k]), blocks[k].at))
    && (forall k, l :: 0 <= k < l < |blocks| ==> Later(blocks[k].at, blocks[l].at))
  }

  ghost predicate AllFrom<R>(blocks: seq<Block<R>>, p: nat, i: nat) {
    forall k :: 0 <= k < |blocks| ==> blocks[k].at.page == p && blocks[k].at.first >= i
  }

  lemma {:induction false} ReadFirst<C, R>(r: Recognizer<C, R>, pages: seq<Page>, block: Block<R>, rest: seq<Block<R>>)
    requires InRange(pages, block.at) && ReadFrom(r, pages, AnalyteOf(r, pages, block), block.at)
    requires AllRead(r, pages, rest) && AllFrom(rest, block.at.page, block.at.last + 1)
    ensures AllRead(r, pages, [block] + rest) && AllFrom([block] + rest, block.at.page, block.at.first)
  {
    hide ReadFrom, AnalyteOf, LineCount;
    var all := [block] + rest;
    assert forall k :: 1 <= k < |all| ==> all[k] == rest[k - 1];
  }

  lemma {:induction false} FromEarlier<R>(blocks: seq<Block<R>>, p: nat, i: nat, j: nat)
    requires AllFrom(blocks, p, j) && i <= j
    ensures AllFrom(blocks, p, i)
  {}

  /** Every result of a page was read from its own whole lines, in order. */
  lemma {:induction false} BlocksAreRead<C, R>(r: Recognizer<C, R>, pages: seq<Page>, p: nat, i: nat)
    requires p < |pages| && i <= LineCount(pages, p)
    ensures AllRead(r, pages, Blocks(r, pages, p, i)) && AllFrom(Blocks(r, pages, p, i), p, i)
    decreases LineCount(pages, p) - i
  {
    hide AllRead, AllFrom, NamesAnalyte, OwnReading, Follow, Finish, Spread, LineCount;
    if i == LineCount(pages, p) {
      NothingRead(r, pages, p, i);
    } else if !NamesAnalyte(r, pages, p, i) {
      BlocksAreRead(r, pages, p, i + 1);
      FromEarlier(Blocks(r, pages, p, i + 1), p, i, i + 1);
    } else if OwnReading(r, pages, p, i).Some? {
      BlocksAreRead(r, pages, p, i + 1);
      OwnIsRead(r, pages, p, i, OwnReading(r, pages, p, i).value, Blocks(r, pages, p, i + 1));
    } else {
      var outcome := Follow(r, pages, p, i, i + 1, false);
      var next := if outcome.Closed? then outcome.last + 1 else outcome.resume;
      BlocksAreRead(r, pages, p, next);
      if outcome.Closed? {
        SpreadIsRead(r, pages, p, i, outcome.last, Blocks(r, pages, p, next));
      } else {
        FromEarlier(Blocks(r, pages, p, next), p, i, next);
      }
      FinishIs(r, pages, p, i, outcome);
    }
  }

  lemma {:induction false} NothingRead<C, R>(r: Recognizer<C, R>, pages: seq<Page>, p: nat, i: nat)
    ensures AllRead<C, R>(r, pages, []) && AllFrom<R>([], p, i)
  {}

  lemma {:induction false} OwnIsRead<C, R>(r: Recognizer<C, R>, pages: seq<Page>, p: nat, i: nat, reading: R,
                                           rest: seq<Block<R>>)
    requires p < |pages| && i < LineCount(pages, p) && NamesAnalyte(r, pages, p, i)
    requires AllRead(r, pages, rest) && AllFrom(rest, p, i + 1)
    ensures var blocks := [Block(Place(p, i, i), reading)] + rest;
            AllRead(r, pages, blocks) && AllFrom(blocks, p, i)
  {
    hide Split, Content, SamplesBefore, SkippedBefore, ReadFrom, AnalyteOf, AllRead, AllFrom;
    BlockIsRead(r, pages, Block(Place(p, i, i), reading));
    ReadFirst(r, pages, Block(Place(p, i, i), reading), rest);
  }

  lemma {:induction false} FinishIs<C, R>(r: Recognizer<C, R>, pages: seq<Page>, p: nat, i: nat, outcome: Outcome)
    requires p < |pages| && i < LineCount(pages, p)
    requires if outcome.Closed? then i < outcome.last < LineCount(pages, p)
             else i < outcome.resume <= LineCount(pages, p)
    ensures Finish(r, pages, p, i, outcome) ==
            if outcome.Closed? then [Spread(r, pages, p, i, outcome.last)] + Blocks(r, pages, p, outcome.last + 1)
            else Blocks(r, pages, p, outcome.resume)
  {
    hide Blocks, Spread, LineCount;
  }

  lemma {:induction false} SpreadIsRead<C, R>(r: Recognizer<C, R>, pages: seq<Page>, p: nat, i: nat, last: nat,
                                              rest: seq<Block<R>>)
    requires p < |pages| && i < last < LineCount(pages, p) && NamesAnalyte(r, pages, p, i)
    requires Follow(r, pages, p, i, i + 1, false) == Closed(last)
    requires AllRead(r, pages, rest) && AllFrom(rest, p, last + 1)
    ensures var blocks := [Spread(r, pages, p, i, last)] + rest;
            AllRead(r, pages, blocks) && AllFrom(blocks, p, i)
  {
    hide *;
    SpreadIs(r, pages, p, i, last);
    ClosedIsWhole(r, pages, p, i, i + 1, false);
    BlockIsRead(r, pages, Spread(r, pages, p, i, last));
    ReadFirst(r, pages, Spread(r, pages, p, i, last), rest);
  }

  lemma {:induction false} SpreadIs<C, R>(r: Recognizer<C, R>, pages: seq<Page>, p: nat, i: nat, last: nat)
    requires p < |pages| && i < last < LineCount(pages, p)
    ensures SameSample(r, pages, p, i, i + 1)
    ensures Spread(r, pages, p, i, last).at == Place(p, i, last) && InRange(pages, Place(p, i, last))
  {
    hide SamplesBefore, Trimmed, ContentOf;
  }

  lemma {:induction false} ReadFurther<C, R>(r: Recognizer<C, R>, pages: seq<Page>, p: nat, earlier: seq<Block<R>>,
                                             more: seq<Block<R>>)
    requires AllRead(r, pages, earlier) && AllRead(r, pages, more) && AllFrom(more, p, 0)
    requires forall k :: 0 <= k < |earlier| ==> earlier[k].at.page < p
    ensures AllRead(r, pages, earlier + more)
    ensures forall k :: 0 <= k < |earlier + more| ==> (earlier + more)[k].at.page < p + 1
  {
    hide ReadFrom, AnalyteOf, LineCount;
  }

  /**
    Every result quotes consecutive whole lines of one page of the selected sample exactly, and no
    line serves two results.
  */
  lemma {:induction false} AllBlocksAreRead<C, R>(r: Recognizer<C, R>, pages: seq<Page>, p: nat)
    requires p <= |pages|
    ensures AllRead(r, pages, BlocksBefore(r, pages, p))
    ensures forall k :: 0 <= k < |BlocksBefore(r, pages, p)| ==> BlocksBefore(r, pages, p)[k].at.page < p
  {
    hide AllRead, AllFrom, Blocks;
    if p == 0 {
      NothingRead(r, pages, p, 0);
    } else {
      AllBlocksAreRead(r, pages, p - 1);
      BlocksAreRead(r, pages, p - 1, 0);
      ReadFurther(r, pages, p - 1, BlocksBefore(r, pages, p - 1), Blocks(r, pages, p - 1, 0));
    }
  }

  // ---------- which results there are ----------

  ghost predicate Quiet<C, R>(r: Recognizer<C, R>, pages: seq<Page>, p: nat, first: nat, j: nat)
    requires p < |pages| && j <= LineCount(pages, p)
  {
    forall k :: first < k < j && Trimmed(r, pages, p, k) != "" ==> !Breaks(r, pages, p, k)
  }

  ghost predicate NoUnit<C, R>(r: Recognizer<C, R>, pages: seq<Page>, p: nat, first: nat, j: nat)
    requires p < |pages| && j <= LineCount(pages, p)
  {
    forall k :: first < k < j && Trimmed(r, pages, p, k) != "" ==> !r.hasUnit(Trimmed(r, pages, p, k))
  }

  ghost predicate AllBlank<C, R>(r: Recognizer<C, R>, pages: seq<Page>, p: nat, i: nat, j: nat)
    requires p < |pages| && j <= LineCount(pages, p)
  {
    forall k :: i < k < j ==> Trimmed(r, pages, p, k) == ""
  }

  /**
    The shape of a result spread over lines: undisturbed up to its last line, its unit on one of the
    five lines after the first, and the last line that of the unit when the detection limit has been
    met, otherwise the next line that is not blank.
  */
  ghost predicate Shape<C, R>(r: Recognizer<C, R>, pages: seq<Page>, p: nat, first: nat, unit: nat, last: nat) {
    && p < |pages| && first < unit <= last < LineCount(pages, p)
    && Quiet(r, pages, p, first, last + 1) && NoUnit(r, pages, p, first, unit)
    && Trimmed(r, pages, p, unit) != "" && r.hasUnit(Trimmed(r, pages, p, unit))
    && |ContentOf(r, pages, p, first, unit)| <= 6
    && if r.hasDetectionLimit(Join(ContentOf(r, pages, p, first, unit), " ")) then last == unit
       else unit < last && Trimmed(r, pages, p, last) != "" && AllBlank(r, pages, p, unit, last)
  }

  lemma {:induction false} QuietMore<C, R>(r: Recognizer<C, R>, pages: seq<Page>, p: nat, first: nat, j: nat)
    requires p < |pages| && j < LineCount(pages, p) && Quiet(r, pages, p, first, j)
    requires Trimmed(r, pages, p, j) != "" ==> !Breaks(r, pages, p, j)
    ensures Quiet(r, pages, p, first, j + 1)
  {
    hide Trimmed, Breaks, LineCount;
  }

  lemma {:induction false} NoUnitMore<C, R>(r: Recognizer<C, R>, pages: seq<Page>, p: nat, first: nat, j: nat)
    requires p < |pages| && j < LineCount(pages, p) && NoUnit(r, pages, p, first, j)
    requires Trimmed(r, pages, p, j) != "" ==> !r.hasUnit(Trimmed(r, pages, p, j))
    ensures NoUnit(r, pages, p, first, j + 1)
  {
    hide Trimmed, LineCount;
  }

  lemma {:induction false} BlankMore<C, R>(r: Recognizer<C, R>, pages: seq<Page>, p: nat, i: nat, j: nat)
    requires p < |pages| && j < LineCount(pages, p) && AllBlank(r, pages, p, i, j) && Trimmed(r, pages, p, j) == ""
    ensures AllBlank(r, pages, p, i, j + 1)
  {
    hide Trimmed, LineCount;
  }

  lemma {:induction false} ContentMore<C, R>(r: Recognizer<C, R>, pages: seq<Page>, p: nat, first: nat, j: nat)
    requires p < |pages| && first < j < LineCount(pages, p)
    ensures ContentOf(r, pages, p, first, j) ==
            ContentOf(r, pages, p, first, j - 1)
              + (if Trimmed(r, pages, p, j) == "" then [] else [Trimmed(r, pages, p, j)])
  {
    hide Split, Content;
    ContentStep(r.trim, Split(pages[p].text), first, j);
  }

  lemma {:induction false} ContentGrows<C, R>(r: Recognizer<C, R>, pages: seq<Page>, p: nat, first: nat, j: nat, k: nat)
    requires p < |pages| && first <= j < k < LineCount(pages, p) && Trimmed(r, pages, p, k) != ""
    ensures |ContentOf(r, pages, p, first, j)| < |ContentOf(r, pages, p, first, k)|
  {
    hide ContentOf, Trimmed, LineCount;
    ContentMore(r, pages, p, first, k);
    if j < k - 1 { ContentNeverShrinks(r, pages, p, first, j, k - 1); }
  }

  lemma {:induction false} ContentNeverShrinks<C, R>(r: Recognizer<C, R>, pages: seq<Page>, p: nat, first: nat, j: nat,
                                                     k: nat)
    requires p < |pages| && first <= j <= k < LineCount(pages, p)
    ensures |ContentOf(r, pages, p, first, j)| <= |ContentOf(r, pages, p, first, k)|
    decreases k - j
  {
    hide ContentOf, Trimmed, LineCount;
    if j < k {
      ContentMore(r, pages, p, first, k);
      ContentNeverShrinks(r, pages, p, first, j, k - 1);
    }
  }

  /** After the unit: the next line that is not blank closes the result, unless it breaks it. */
  lemma {:induction false} AfterUnit<C, R>(r: Recognizer<C, R>, pages: seq<Page>, p: nat, first: nat, unit: nat, j: nat,
                                           last: nat)
    requires p < |pages| && first < unit < j <= LineCount(pages, p)
    requires AllBlank(r, pages, p, unit, j) && Quiet(r, pages, p, first, j)
    requires Follow(r, pages, p, first, j, true) == Closed(last)
    ensures unit < last < LineCount(pages, p) && Trimmed(r, pages, p, last) != "" && AllBlank(r, pages, p, unit, last)
    ensures Quiet(r, pages, p, first, last + 1)
    decreases LineCount(pages, p) - j
  {
    hide Trimmed, Breaks, LineCount, Quiet, AllBlank, ContentOf;
    if Trimmed(r, pages, p, j) == "" {
      BlankMore(r, pages, p, unit, j);
      QuietMore(r, pages, p, first, j);
      AfterUnit(r, pages, p, first, unit, j + 1, last);
    } else {
      QuietMore(r, pages, p, first, j);
    }
  }

  lemma {:induction false} ClosedHasShape<C, R>(r: Recognizer<C, R>, pages: seq<Page>, p: nat, first: nat, j: nat,
                                                last: nat) returns (unit: nat)
    requires p < |pages| && first < j <= LineCount(pages, p)
    requires Quiet(r, pages, p, first, j) && NoUnit(r, pages, p, first, j)
    requires |ContentOf(r, pages, p, first, j - 1)| <= 5
    requires Follow(r, pages, p, first, j, false) == Closed(last)
    ensures Shape(r, pages, p, first, unit, last)
    decreases LineCount(pages, p) - j
  {
    hide Trimmed, Breaks, LineCount, Quiet, NoUnit, ContentOf, AllBlank;
    ContentMore(r, pages, p, first, j);
    QuietMore(r, pages, p, first, j);
    if Trimmed(r, pages, p, j) != "" && r.hasUnit(Trimmed(r, pages, p, j)) {
      unit := j;
      if !r.hasDetectionLimit(Join(ContentOf(r, pages, p, first, j), " ")) {
        NoneBetween(r, pages, p, j);
        AfterUnit(r, pages, p, first, j, j + 1, last);
      }
    } else {
      NoUnitMore(r, pages, p, first, j);
      unit := ClosedHasShape(r, pages, p, first, j + 1, last);
    }
  }

  lemma {:induction false} NoneBetween<C, R>(r: Recognizer<C, R>, pages: seq<Page>, p: nat, j: nat)
    requires p < |pages| && j < LineCount(pages, p)
    ensures AllBlank(r, pages, p, j, j + 1)
  {}

  lemma {:induction false} BlankThenClosed<C, R>(r: Recognizer<C, R>, pages: seq<Page>, p: nat, first: nat, unit: nat,
                                                 j: nat, last: nat)
    requires Shape(r, pages, p, first, unit, last) && unit < j <= last
    ensures Follow(r, pages, p, first, j, true) == Closed(last)
    decreases last - j
  {
    hide Trimmed, Breaks, LineCount, NoUnit, ContentOf;
    if j < last { BlankThenClosed(r, pages, p, first, unit, j + 1, last); }
  }

  lemma {:induction false} ShapeCloses<C, R>(r: Recognizer<C, R>, pages: seq<Page>, p: nat, first: nat, unit: nat,
                                             j: nat, last: nat)
    requires Shape(r, pages, p, first, unit, last) && first < j <= unit
    ensures Follow(r, pages, p, first, j, false) == Closed(last)
    decreases unit - j
  {
    hide Trimmed, Breaks, LineCount, ContentOf, AllBlank;
    if j < unit {
      ContentGrows(r, pages, p, first, j, unit);
      ShapeCloses(r, pages, p, first, unit, j + 1, last);
    } else if unit < last {
      BlankThenClosed(r, pages, p, first, unit, unit + 1, last);
    }
  }

  /** A started result is closed at a line if and only if the lines up to it have the shape of one. */
  lemma {:induction false} ClosedExactly<C, R>(r: Recognizer<C, R>, pages: seq<Page>, p: nat, first: nat, last: nat)
    requires p < |pages| && first < LineCount(pages, p)
    ensures Follow(r, pages, p, first, first + 1, false) == Closed(last) <==>
              exists unit :: Shape(r, pages, p, first, unit, last)
  {
    hide Follow, Shape, LineCount;
    if Follow(r, pages, p, first, first + 1, false) == Closed(last) {
      NothingYet(r, pages, p, first);
      var unit := ClosedHasShape(r, pages, p, first, first + 1, last);
    }
    if exists unit :: Shape(r, pages, p, first, unit, last) {
      var unit :| Shape(r, pages, p, first, unit, last);
      ShapeOrder(r, pages, p, first, unit, last);
      ShapeCloses(r, pages, p, first, unit, first + 1, last);
    }
  }

  lemma {:induction false} ShapeOrder<C, R>(r: Recognizer<C, R>, pages: seq<Page>, p: nat, first: nat, unit: nat,
                                            last: nat)
    requires Shape(r, pages, p, first, unit, last)
    ensures first < unit
  {
    hide Trimmed, Breaks, LineCount, ContentOf, AllBlank, Quiet, NoUnit;
  }

  lemma {:induction false} NothingYet<C, R>(r: Recognizer<C, R>, pages: seq<Page>, p: nat, first: nat)
    requires p < |pages| && first < LineCount(pages, p)
    ensures Quiet(r, pages, p, first, first + 1) && NoUnit(r, pages, p, first, first + 1)
    ensures |ContentOf(r, pages, p, first, first)| <= 1
  {
    hide Trimmed, Breaks, Split;
    var lines := Split(pages[p].text);
    ContentStep(r.trim, lines, first, first);
    assert lines[first..first] == [];
  }

  /** From line s on, with nothing pending, the scan comes to line i with nothing pending. */
  predicate Reaches<C, R>(r: Recognizer<C, R>, pages: seq<Page>, p: nat, s: nat, i: nat)
    requires p < |pages| && s <= LineCount(pages, p)
    decreases LineCount(pages, p) - s
  {
    if s >= i || s == LineCount(pages, p) then s == i
    else Reaches(r, pages, p, NextStand(r, pages, p, s), i)
  }

  /** Where the scan next has nothing pending after line s. */
  function NextStand<C, R>(r: Recognizer<C, R>, pages: seq<Page>, p: nat, s: nat): (next: nat)
    requires p < |pages| && s < LineCount(pages, p)
    ensures s < next <= LineCount(pages, p)
  {
    if !NamesAnalyte(r, pages, p, s) || OwnReading(r, pages, p, s).Some? then s + 1
    else
      match Follow(r, pages, p, s, s + 1, false)
      case Closed(last) => last + 1
      case Dropped(resume) => resume
  }

  /**
    A result that was started on line `first`, with nothing else pending, takes up line i, whether
    it is closed or given up.
  */
  predicate Claims<C, R>(r: Recognizer<C, R>, pages: seq<Page>, p: nat, first: nat, i: nat) {
    && p < |pages| && first < i < LineCount(pages, p)
    && Reaches(r, pages, p, 0, first) && i < NextStand(r, pages, p, first)
  }

  lemma {:induction false} ReachesOn<C, R>(r: Recognizer<C, R>, pages: seq<Page>, p: nat, s: nat, i: nat)
    requires p < |pages| && s <= i < LineCount(pages, p) && Reaches(r, pages, p, s, i)
    ensures Reaches(r, pages, p, s, NextStand(r, pages, p, i))
    decreases LineCount(pages, p) - s
  {
    hide NextStand, LineCount;
    if s < i { ReachesOn(r, pages, p, NextStand(r, pages, p, s), i); }
  }

  lemma {:induction false} ReachesForward<C, R>(r: Recognizer<C, R>, pages: seq<Page>, p: nat, s: nat, i: nat)
    requires p < |pages| && s <= LineCount(pages, p) && Reaches(r, pages, p, s, i)
    ensures s <= i <= LineCount(pages, p)
    decreases LineCount(pages, p) - s
  {
    hide NextStand, LineCount;
    if s < i && s < LineCount(pages, p) { ReachesForward(r, pages, p, NextStand(r, pages, p, s), i); }
  }

  /** If line i is passed over from line s on, some line that is reached passes over it. */
  lemma {:induction false} PassedOver<C, R>(r: Recognizer<C, R>, pages: seq<Page>, p: nat, s: nat, i: nat)
    returns (first: nat)
    requires p < |pages| && s <= i < LineCount(pages, p) && Reaches(r, pages, p, 0, s) && !Reaches(r, pages, p, s, i)
    ensures Claims(r, pages, p, first, i)
    decreases i - s
  {
    hide NextStand, LineCount;
    var next := NextStand(r, pages, p, s);
    if i < next { return s; }
    ReachesOn(r, pages, p, 0, s);
    first := PassedOver(r, pages, p, next, i);
  }

  /** From a line that is reached and claims line i, line i is not reached. */
  lemma {:induction false} NotReached<C, R>(r: Recognizer<C, R>, pages: seq<Page>, p: nat, s: nat, first: nat, i: nat)
    requires p < |pages| && s <= first < i < LineCount(pages, p)
    requires Reaches(r, pages, p, s, first) && i < NextStand(r, pages, p, first)
    ensures !Reaches(r, pages, p, s, i)
    decreases LineCount(pages, p) - s
  {
    hide NextStand, LineCount;
    if s < first {
      ReachesForward(r, pages, p, NextStand(r, pages, p, s), first);
      NotReached(r, pages, p, NextStand(r, pages, p, s), first, i);
    } else if Reaches(r, pages, p, s, i) {
      ReachesForward(r, pages, p, NextStand(r, pages, p, s), i);
    }
  }

  /** A line is reached with nothing pending if and only if no started result takes it up. */
  lemma {:induction false} ReachedExactly<C, R>(r: Recognizer<C, R>, pages: seq<Page>, p: nat, i: nat)
    requires p < |pages| && i < LineCount(pages, p)
    ensures Reaches(r, pages, p, 0, i) <==> forall first :: 0 <= first < i ==> !Claims(r, pages, p, first, i)
  {
    hide NextStand, LineCount, Claims;
    assert Reaches(r, pages, p, 0, 0);
    if !Reaches(r, pages, p, 0, i) {
      var first := PassedOver(r, pages, p, 0, i);
      ClaimsIs(r, pages, p, first, i);
    }
    forall first | 0 <= first < i && Claims(r, pages, p, first, i) ensures !Reaches(r, pages, p, 0, i) {
      ClaimsIs(r, pages, p, first, i);
      NotReached(r, pages, p, 0, first, i);
    }
  }

  lemma {:induction false} ClaimsIs<C, R>(r: Recognizer<C, R>, pages: seq<Page>, p: nat, first: nat, i: nat)
    requires p < |pages|
    ensures Claims(r, pages, p, first, i) <==>
              first < i < LineCount(pages, p) && Reaches(r, pages, p, 0, first) && i < NextStand(r, pages, p, first)
  {
    hide NextStand, LineCount, Reaches;
  }

  /** The block of a line that names an analyte: its own reading, or the lines of the result it starts. */
  ghost predicate BlockStartedAt<C, R>(r: Recognizer<C, R>, pages: seq<Page>, p: nat, i: nat, block: Block<R>)
    requires p < |pages| && i < LineCount(pages, p)
  {
    match OwnReading(r, pages, p, i)
    case Some(reading) => block == Block(Place(p, i, i), reading)
    case None =>
      match Follow(r, pages, p, i, i + 1, false)
      case Closed(last) => block == Spread(r, pages, p, i, last)
      case Dropped(_) => false
  }

  /** From line s on, the results are the blocks of the lines that are reached and name an analyte. */
  lemma {:induction false} BlocksAreReached<C, R>(r: Recognizer<C, R>, pages: seq<Page>, p: nat, s: nat,
                                                  block: Block<R>)
    requires p < |pages| && s <= LineCount(pages, p)
    ensures block in Blocks(r, pages, p, s) <==> StartsAt(r, pages, p, s, block)
    decreases LineCount(pages, p) - s
  {
    hide Blocks, LineCount, StartsAt, NextStand;
    if s == LineCount(pages, p) {
      NothingStarts(r, pages, p, s, block);
    } else {
      BlocksAreReached(r, pages, p, NextStand(r, pages, p, s), block);
      BlocksFrom(r, pages, p, s, block);
      StartsFrom(r, pages, p, s, block);
    }
  }

  /** The block starts on a line of page p that is reached from line s on and names an analyte. */
  ghost predicate StartsAt<C, R>(r: Recognizer<C, R>, pages: seq<Page>, p: nat, s: nat, block: Block<R>)
    requires p < |pages| && s <= LineCount(pages, p)
  {
    && block.at.page == p && s <= block.at.first < LineCount(pages, p)
    && Reaches(r, pages, p, s, block.at.first)
    && NamesAnalyte(r, pages, p, block.at.first) && BlockStartedAt(r, pages, p, block.at.first, block)
  }

  lemma {:induction false} NothingStarts<C, R>(r: Recognizer<C, R>, pages: seq<Page>, p: nat, s: nat, block: Block<R>)
    requires p < |pages| && s == LineCount(pages, p)
    ensures block !in Blocks(r, pages, p, s) && !StartsAt(r, pages, p, s, block)
  {
    hide LineCount, Reaches, NamesAnalyte, BlockStartedAt;
  }

  /** The block a reached line gives, if any. */
  function StartedHere<C, R>(r: Recognizer<C, R>, pages: seq<Page>, p: nat, i: nat): seq<Block<R>>
    requires p < |pages| && i < LineCount(pages, p)
  {
    if !NamesAnalyte(r, pages, p, i) then []
    else
      match OwnReading(r, pages, p, i)
      case Some(reading) => [Block(Place(p, i, i), reading)]
      case None =>
        match Follow(r, pages, p, i, i + 1, false)
        case Closed(last) => [Spread(r, pages, p, i, last)]
        case Dropped(_) => []
  }

  lemma {:induction false} StartedIs<C, R>(r: Recognizer<C, R>, pages: seq<Page>, p: nat, i: nat, block: Block<R>)
    requires p < |pages| && i < LineCount(pages, p)
    ensures block in StartedHere(r, pages, p, i) <==>
              NamesAnalyte(r, pages, p, i) && BlockStartedAt(r, pages, p, i, block)
  {
    hide NamesAnalyte, OwnReading, Follow, Spread, LineCount;
  }

  lemma {:induction false} StandAfter<C, R>(r: Recognizer<C, R>, pages: seq<Page>, p: nat, s: nat, outcome: Outcome)
    requires p < |pages| && s < LineCount(pages, p) && NamesAnalyte(r, pages, p, s) && OwnReading(r, pages, p, s).None?
    requires outcome == Follow(r, pages, p, s, s + 1, false)
    ensures NextStand(r, pages, p, s) == if outcome.Closed? then outcome.last + 1 else outcome.resume
    ensures outcome.Closed? ==> s < outcome.last < LineCount(pages, p)
    ensures StartedHere(r, pages, p, s) == if outcome.Closed? then [Spread(r, pages, p, s, outcome.last)] else []
  {
    hide LineCount, NamesAnalyte, OwnReading, Follow, Spread;
  }

  lemma {:induction false} SpreadSplit<C, R>(r: Recognizer<C, R>, pages: seq<Page>, p: nat, s: nat)
    requires p < |pages| && s < LineCount(pages, p) && NamesAnalyte(r, pages, p, s) && OwnReading(r, pages, p, s).None?
    ensures Finish(r, pages, p, s, Follow(r, pages, p, s, s + 1, false)) ==
            StartedHere(r, pages, p, s) + Blocks(r, pages, p, NextStand(r, pages, p, s))
  {
    hide *;
    var outcome := Follow(r, pages, p, s, s + 1, false);
    FinishIs(r, pages, p, s, outcome);
    StandAfter(r, pages, p, s, outcome);
  }

  lemma {:induction false} OwnSplit<C, R>(r: Recognizer<C, R>, pages: seq<Page>, p: nat, s: nat)
    requires p < |pages| && s < LineCount(pages, p)
             && (!NamesAnalyte(r, pages, p, s) || OwnReading(r, pages, p, s).Some?)
    ensures NextStand(r, pages, p, s) == s + 1
    ensures StartedHere(r, pages, p, s) ==
            if NamesAnalyte(r, pages, p, s) then [Block(Place(p, s, s), OwnReading(r, pages, p, s).value)] else []
  {
    hide LineCount, NamesAnalyte, OwnReading, Follow, Spread;
  }

  lemma {:induction false} BlocksSplit<C, R>(r: Recognizer<C, R>, pages: seq<Page>, p: nat, s: nat)
    requires p < |pages| && s < LineCount(pages, p)
    ensures Blocks(r, pages, p, s) == StartedHere(r, pages, p, s) + Blocks(r, pages, p, NextStand(r, pages, p, s))
  {
    hide *;
    BlocksStep(r, pages, p, s);
    if NamesAnalyte(r, pages, p, s) && OwnReading(r, pages, p, s).None? {
      SpreadSplit(r, pages, p, s);
    } else {
      OwnSplit(r, pages, p, s);
    }
  }

  /** A line's own block, and those from the next stand on. */
  lemma {:induction false} BlocksFrom<C, R>(r: Recognizer<C, R>, pages: seq<Page>, p: nat, s: nat, block: Block<R>)
    requires p < |pages| && s < LineCount(pages, p)
    ensures block in Blocks(r, pages, p, s) <==>
              || (NamesAnalyte(r, pages, p, s) && BlockStartedAt(r, pages, p, s, block))
              || block in Blocks(r, pages, p, NextStand(r, pages, p, s))
  {
    hide *;
    BlocksSplit(r, pages, p, s);
    StartedIs(r, pages, p, s, block);
  }

  lemma {:induction false} StartsFrom<C, R>(r: Recognizer<C, R>, pages: seq<Page>, p: nat, s: nat, block: Block<R>)
    requires p < |pages| && s < LineCount(pages, p)
    ensures StartsAt(r, pages, p, s, block) <==>
              || (NamesAnalyte(r, pages, p, s) && BlockStartedAt(r, pages, p, s, block))
              || StartsAt(r, pages, p, NextStand(r, pages, p, s), block)
  {
    if BlockStartedAt(r, pages, p, s, block) { StartedIsAt(r, pages, p, s, block); }
    if s < block.at.first < LineCount(pages, p) && Reaches(r, pages, p, s, block.at.first) {
      ReachesForward(r, pages, p, NextStand(r, pages, p, s), block.at.first);
    }
    hide LineCount, NamesAnalyte, NextStand, BlockStartedAt;
  }

  lemma {:induction false} StartedIsAt<C, R>(r: Recognizer<C, R>, pages: seq<Page>, p: nat, i: nat, block: Block<R>)
    requires p < |pages| && i < LineCount(pages, p) && BlockStartedAt(r, pages, p, i, block)
    ensures block.at.page == p && block.at.first == i
  {
    hide LineCount, OwnReading, Follow, ContentOf, Trimmed;
  }

  lemma {:induction false} PageHolds<C, R>(r: Recognizer<C, R>, pages: seq<Page>, q: nat, block: Block<R>)
    requires q <= |pages|
    ensures block in BlocksBefore(r, pages, q) <==> block.at.page < q && StartsAt(r, pages, block.at.page, 0, block)
  {
    hide StartsAt, Blocks, LineCount;
    if q > 0 {
      PageHolds(r, pages, q - 1, block);
      BlocksAreReached(r, pages, q - 1, 0, block);
      StartsOnPage(r, pages, q - 1, block);
    }
  }

  lemma {:induction false} StartsOnPage<C, R>(r: Recognizer<C, R>, pages: seq<Page>, p: nat, block: Block<R>)
    requires p < |pages|
    ensures StartsAt(r, pages, p, 0, block) ==> block.at.page == p
  {
    hide Reaches, NamesAnalyte, BlockStartedAt, LineCount;
  }

  /**
    Which results there are: exactly the blocks of lines that name an analyte and that the scan
    comes to with nothing pending.  No result is lost, and none is made up.
  */
  lemma {:induction false} ResultsExactly<C, R>(r: Recognizer<C, R>, pages: seq<Page>, block: Block<R>)
    ensures block in BlocksBefore(r, pages, |pages|) <==>
              var p, i := block.at.page, block.at.first;
              && p < |pages| && i < LineCount(pages, p) && Reaches(r, pages, p, 0, i)
              && NamesAnalyte(r, pages, p, i) && BlockStartedAt(r, pages, p, i, block)
  {
    hide Blocks, LineCount, NamesAnalyte, BlockStartedAt, Reaches, BlocksBefore;
    PageHolds(r, pages, |pages|, block);
  }

  /** A line that names an analyte and that no started result takes up gives its block, if it has one. */
  lemma {:induction false} UnclaimedNamesAreFound<C, R>(r: Recognizer<C, R>, pages: seq<Page>, p: nat, i: nat,
                                                        block: Block<R>)
    requires p < |pages| && i < LineCount(pages, p) && NamesAnalyte(r, pages, p, i)
    requires forall first :: 0 <= first < i ==> !Claims(r, pages, p, first, i)
    requires BlockStartedAt(r, pages, p, i, block)
    ensures block in BlocksBefore(r, pages, |pages|)
  {
    ReachedExactly(r, pages, p, i);
    StartedIsAt(r, pages, p, i, block);
    ResultsExactly(r, pages, block);
  }

  // ---------- the scanner ----------

  /** What survives from one page to the next. */
  datatype Carried<C, R> = Carried(selectedSample: string, active: bool, columns: Option<C>, analytes: seq<Analyte<R>>)

  /** The scanner's variables, except the offset. */
  datatype Cursor<C, R> = Cursor(
    selectedSample: string, active: bool, columns: Option<C>, analytes: seq<Analyte<R>>, pending: Option<Pending>,
    skip: bool)

  ghost predicate SampleState(ids: seq<string>, selectedSample: string, active: bool) {
    && (selectedSample == "" <==> |ids| == 0)
    && (|ids| > 0 ==> selectedSample == ids[0])
    && active == Selected(ids)
  }

  /** A started result: its lines so far, from line `first` to the one before line i. */
  ghost predicate PendingFrom<C, R>(r: Recognizer<C, R>, pages: seq<Page>, p: nat, i: nat, pending: Pending, first: nat)
    requires p < |pages| && i <= LineCount(pages, p)
  {
    && first < i
    && pending.start == LineStart(Split(pages[p].text), first)
    && pending.lines == ContentOf(r, pages, p, first, i - 1)
    && pending.canonical == r.canonicalAnalyte(Trimmed(r, pages, p, first))
  }

  /** What the scanner knows before line i of page p; `first` is where the pending result began. */
  ghost predicate Tracks<C, R>(r: Recognizer<C, R>, pages: seq<Page>, p: nat, i: nat, c: Cursor<C, R>, first: nat)
    requires p < |pages| && i <= LineCount(pages, p)
  {
    && SampleState(SamplesBefore(r, pages, p, i), c.selectedSample, c.active)
    && c.columns == ColumnsBefore(r, pages, p, i) && c.skip == SkippedBefore(r, pages, p, i)
    && (c.pending.Some? ==> c.active)
    && (c.pending.Some? && !c.skip ==> PendingFrom(r, pages, p, i, c.pending.value, first))
  }

  /** The results still to come: those of the pending one and all after it, or those from line i on. */
  function ToCome<C, R>(r: Recognizer<C, R>, pages: seq<Page>, p: nat, i: nat, pending: Option<Pending>,
                        first: nat): seq<Block<R>>
    requires p < |pages| && i <= LineCount(pages, p) && (pending.Some? ==> first < i)
  {
    if pending.Some? then Finish(r, pages, p, first, Follow(r, pages, p, first, i, pending.value.unitSeen))
    else Blocks(r, pages, p, i)
  }

  /** Where nothing is read, what is pending no longer matters. */
  function Live<C, R>(c: Cursor<C, R>): Option<Pending> { if c.skip then None else c.pending }

  /** The analytes so far are the first of all results, and the rest is still to come. */
  ghost predicate Delivered<C, R>(r: Recognizer<C, R>, pages: seq<Page>, all: seq<Block<R>>, analytes: seq<Analyte<R>>,
                                  rest: seq<Block<R>>) {
    |analytes| <= |all| && Quotes(r, pages, analytes, all[..|analytes|]) && all[|analytes|..] == rest
  }

  ghost predicate CursorOk<C, R>(r: Recognizer<C, R>, pages: seq<Page>, p: nat, i: nat, c: Cursor<C, R>,
                                 all: seq<Block<R>>, first: nat)
    requires p < |pages| && i <= LineCount(pages, p)
  {
    && Tracks(r, pages, p, i, c, first)
    && (Live(c).Some? ==> first < i)
    && Delivered(r, pages, all, c.analytes, ToCome(r, pages, p, i, Live(c), first))
  }

  /** The scanner before line i, wherever its pending result began. */
  ghost predicate ScannedTo<C, R>(r: Recognizer<C, R>, pages: seq<Page>, p: nat, i: nat, c: Cursor<C, R>,
                                  all: seq<Block<R>>)
    requires p < |pages| && i <= LineCount(pages, p)
  {
    exists first :: CursorOk(r, pages, p, i, c, all, first)
  }

  lemma {:induction false} ScannedHere<C, R>(r: Recognizer<C, R>, pages: seq<Page>, p: nat, i: nat, c: Cursor<C, R>,
                                             all: seq<Block<R>>, first: nat)
    requires p < |pages| && i <= LineCount(pages, p) && CursorOk(r, pages, p, i, c, all, first)
    ensures ScannedTo(r, pages, p, i, c, all)
  {
    hide CursorOk, LineCount;
  }

  lemma {:induction false} PendingBegan<C, R>(r: Recognizer<C, R>, pages: seq<Page>, p: nat, i: nat, c: Cursor<C, R>,
                                              all: seq<Block<R>>) returns (first: nat)
    requires p < |pages| && i <= LineCount(pages, p) && ScannedTo(r, pages, p, i, c, all)
    ensures CursorOk(r, pages, p, i, c, all, first)
  {
    hide CursorOk, LineCount;
    first :| CursorOk(r, pages, p, i, c, all, first);
  }

  lemma {:induction false} DeliverOne<C, R>(r: Recognizer<C, R>, pages: seq<Page>, all: seq<Block<R>>,
                                            analytes: seq<Analyte<R>>, block: Block<R>, rest: seq<Block<R>>)
    requires InRange(pages, block.at) && Delivered(r, pages, all, analytes, [block] + rest)
    ensures Delivered(r, pages, all, analytes + [AnalyteOf(r, pages, block)], rest)
  {
    hide AnalyteOf, InRange;
    var n := |analytes|;
    assert all[n..][0] == block && all[n..][1..] == rest;
    assert all[..n + 1] == all[..n] + [block] && all[n + 1..] == all[n..][1..];
  }

  // ---------- one line ----------

  lemma {:induction false} NextLine(pages: seq<Page>, p: nat, i: nat)
    requires p < |pages| && i < LineCount(pages, p)
    ensures var lines := Split(pages[p].text);
            LineStart(lines, i + 1) == LineStart(lines, i) + |LineAt(pages, p, i)| + 1
              && LineEnd(lines, i) == LineStart(lines, i) + |LineAt(pages, p, i)|
  {
    hide Split;
  }

  /** A started result meets its next line: it is finished, kept waiting, or given up after six lines. */
  method ContinuePending<C, R>(r: Recognizer<C, R>, pages: seq<Page>, p: nat, i: nat, pending: Pending, trimmed: Bytes,
                               end: int, ghost first: nat)
    returns (next: Option<Pending>, emitted: Option<Analyte<R>>)
    requires p < |pages| && i < LineCount(pages, p) && trimmed == Trimmed(r, pages, p, i) && trimmed != ""
    requires !Breaks(r, pages, p, i)
    requires end == LineEnd(Split(pages[p].text), i) && PendingFrom(r, pages, p, i, pending, first)
    ensures var outcome := Follow(r, pages, p, first, i, pending.unitSeen);
            && (emitted.Some? ==>
                next.None? && outcome == Closed(i)
                  && emitted.value == AnalyteOf(r, pages, Spread(r, pages, p, first, i)))
            && (next.Some? ==>
                  && PendingFrom(r, pages, p, i + 1, next.value, first)
                  && outcome == Follow(r, pages, p, first, i + 1, next.value.unitSeen))
            && (emitted.None? && next.None? ==> outcome == Dropped(i))
  {
    PendingGrows(r, pages, p, i, pending, first);
    FollowStep(r, pages, p, first, i, pending.unitSeen);
    hide *;
    var grown := pending.(lines := pending.lines + [trimmed]);
    if grown.unitSeen {
      SpreadQuotes(r, pages, p, first, i, grown, end);
      return None, Some(Analyte(grown.canonical, r.linesReading(grown.canonical, grown.lines), pages[p].number,
                                Join(grown.lines, " "), grown.start, end));
    }
    if r.hasUnit(trimmed) {
      grown := grown.(unitSeen := true);
      if r.hasDetectionLimit(Join(grown.lines, " ")) {
        SpreadQuotes(r, pages, p, first, i, grown, end);
        return None, Some(Analyte(grown.canonical, r.linesReading(grown.canonical, grown.lines), pages[p].number,
                                  Join(grown.lines, " "), grown.start, end));
      }
      StillPending(r, pages, p, i, pending.(lines := pending.lines + [trimmed]), first, true);
      return Some(grown), None;
    }
    if |grown.lines| < 6 { return Some(grown), None; }
    return None, None;
  }

  lemma {:induction false} PendingGrows<C, R>(r: Recognizer<C, R>, pages: seq<Page>, p: nat, i: nat, pending: Pending,
                                              first: nat)
    requires p < |pages| && i < LineCount(pages, p) && PendingFrom(r, pages, p, i, pending, first)
    ensures var trimmed := Trimmed(r, pages, p, i);
            var grown := pending.(lines := pending.lines + (if trimmed == "" then [] else [trimmed]));
            PendingFrom(r, pages, p, i + 1, grown, first) && grown.lines == ContentOf(r, pages, p, first, i)
              && first < i
  {
    hide ContentOf, Trimmed, LineStart, Split;
    ContentMore(r, pages, p, first, i);
  }

  lemma {:induction false} StillPending<C, R>(r: Recognizer<C, R>, pages: seq<Page>, p: nat, i: nat, pending: Pending,
                                              first: nat, unitSeen: bool)
    requires p < |pages| && i < LineCount(pages, p) && PendingFrom(r, pages, p, i + 1, pending, first)
    ensures PendingFrom(r, pages, p, i + 1, pending.(unitSeen := unitSeen), first)
  {
    hide ContentOf, Trimmed, LineStart, Split, LineCount;
  }

  /** One line of `Follow`. */
  lemma {:induction false} FollowStep<C, R>(r: Recognizer<C, R>, pages: seq<Page>, p: nat, first: nat, j: nat,
                                            unitSeen: bool)
    requires p < |pages| && first < j < LineCount(pages, p) && Trimmed(r, pages, p, j) != "" && !Breaks(r, pages, p, j)
    ensures Follow(r, pages, p, first, j, unitSeen) ==
            if unitSeen then Closed(j)
            else if r.hasUnit(Trimmed(r, pages, p, j)) then
              if r.hasDetectionLimit(Join(ContentOf(r, pages, p, first, j), " ")) then Closed(j)
                else Follow(r, pages, p, first, j + 1, true)
            else if |ContentOf(r, pages, p, first, j)| < 6 then Follow(r, pages, p, first, j + 1, false)
            else Dropped(j)
  {
    hide Trimmed, Breaks, ContentOf, Join, LineCount;
  }

  lemma {:induction false} SpreadQuotes<C, R>(r: Recognizer<C, R>, pages: seq<Page>, p: nat, first: nat, i: nat,
                                              grown: Pending, end: int)
    requires p < |pages| && i < LineCount(pages, p) && end == LineEnd(Split(pages[p].text), i)
    requires first < i && grown.start == LineStart(Split(pages[p].text), first)
    requires grown.lines == ContentOf(r, pages, p, first, i)
    requires grown.canonical == r.canonicalAnalyte(Trimmed(r, pages, p, first))
    ensures InRange(pages, Spread(r, pages, p, first, i).at)
    ensures AnalyteOf(r, pages, Spread(r, pages, p, first, i)) ==
            Analyte(grown.canonical, r.linesReading(grown.canonical, grown.lines), pages[p].number,
                    Join(grown.lines, " "), grown.start, end)
  {
    hide ContentOf, LineStart, LineEnd, Join, Split;
  }

  lemma {:induction false} OwnQuotes<C, R>(r: Recognizer<C, R>, pages: seq<Page>, p: nat, i: nat, reading: R)
    requires p < |pages| && i < LineCount(pages, p) && Trimmed(r, pages, p, i) != ""
    ensures InRange(pages, Place(p, i, i))
    ensures var lines := Split(pages[p].text);
            AnalyteOf(r, pages, Block(Place(p, i, i), reading)) ==
            Analyte(r.canonicalAnalyte(Trimmed(r, pages, p, i)), reading, pages[p].number, Trimmed(r, pages, p, i),
                    LineStart(lines, i), LineEnd(lines, i))
  {
    SingleLineContent(r.trim, Split(pages[p].text), i);
    hide Content, LineStart, LineEnd, Join, Split;
  }

  lemma {:induction false} StartsPending<C, R>(r: Recognizer<C, R>, pages: seq<Page>, p: nat, i: nat)
    requires p < |pages| && i < LineCount(pages, p) && Trimmed(r, pages, p, i) != ""
    ensures var trimmed := Trimmed(r, pages, p, i);
            PendingFrom(r, pages, p, i + 1,
                        Pending(r.canonicalAnalyte(trimmed), [trimmed], LineStart(Split(pages[p].text), i), false), i)
  {
    SingleLineContent(r.trim, Split(pages[p].text), i);
    hide Content, LineStart, LineEnd, Join, Split;
  }

  lemma {:induction false} OwnReadingIs<C, R>(r: Recognizer<C, R>, pages: seq<Page>, p: nat, i: nat, columns: Option<C>)
    requires p < |pages| && i < LineCount(pages, p) && columns == ColumnsBefore(r, pages, p, i + 1)
    ensures var trimmed := Trimmed(r, pages, p, i);
            var canonical := r.canonicalAnalyte(trimmed);
            OwnReading(r, pages, p, i) ==
            if columns.Some? && r.tableReading(canonical, LineAt(pages, p, i), columns.value).Some?
            then r.tableReading(canonical, LineAt(pages, p, i), columns.value)
            else if r.hasUnit(trimmed) then Some(r.lineReading(canonical, trimmed, columns)) else None
  {
    hide ColumnsBefore, Trimmed, LineAt;
  }

  /** A line that names an analyte is read at once, or starts a result when its unit is still to come. */
  method StartAnalyte<C, R>(r: Recognizer<C, R>, pages: seq<Page>, p: nat, i: nat, columns: Option<C>, line: Bytes,
                            trimmed: Bytes, offset: int)
    returns (next: Option<Pending>, emitted: Option<Analyte<R>>)
    requires p < |pages| && i < LineCount(pages, p) && line == LineAt(pages, p, i) && trimmed == Trimmed(r, pages, p, i)
    requires trimmed != ""
    requires offset == LineStart(Split(pages[p].text), i) && columns == ColumnsBefore(r, pages, p, i + 1)
    ensures if r.canonicalAnalyte(trimmed) == "" then next.None? && emitted.None?
            else match OwnReading(r, pages, p, i)
                 case Some(reading) =>
                   next.None? && InRange(pages, Place(p, i, i))
                     && emitted == Some(AnalyteOf(r, pages, Block(Place(p, i, i), reading)))
                 case None =>
                   emitted.None? && next.Some? && !next.value.unitSeen && PendingFrom(r, pages, p, i + 1, next.value, i)
  {
    OwnReadingIs(r, pages, p, i, columns);
    NextLine(pages, p, i);
    hide *;
    var canonical := r.canonicalAnalyte(trimmed);
    if canonical == "" { return None, None; }
    if columns.Some? {
      var table := r.tableReading(canonical, line, columns.value);
      if table.Some? {
        OwnQuotes(r, pages, p, i, table.value);
        return None, Some(Analyte(canonical, table.value, pages[p].number, trimmed, offset, offset + |line|));
      }
    }
    if !r.hasUnit(trimmed) {
      StartsPending(r, pages, p, i);
      return Some(Pending(canonical, [trimmed], offset, false)), None;
    }
    var reading := r.lineReading(canonical, trimmed, columns);
    OwnQuotes(r, pages, p, i, reading);
    return None, Some(Analyte(canonical, reading, pages[p].number, trimmed, offset, offset + |line|));
  }

  /** What one line leaves to come, and what it delivers. */
  ghost predicate Delivers<C, R>(r: Recognizer<C, R>, pages: seq<Page>, before: seq<Block<R>>,
                                 emitted: Option<Analyte<R>>, after: seq<Block<R>>) {
    match emitted
    case None => before == after
    case Some(a) => |before| > 0 && IsBlockOf(r, pages, before[0], a) && before[1..] == after
  }

  ghost predicate IsBlockOf<C, R>(r: Recognizer<C, R>, pages: seq<Page>, block: Block<R>, a: Analyte<R>) {
    InRange(pages, block.at) && a == AnalyteOf(r, pages, block)
  }

  lemma {:induction false} DeliversMore<C, R>(r: Recognizer<C, R>, pages: seq<Page>, all: seq<Block<R>>,
                                              analytes: seq<Analyte<R>>, before: seq<Block<R>>,
                                              emitted: Option<Analyte<R>>, after: seq<Block<R>>)
    requires Delivered(r, pages, all, analytes, before) && Delivers(r, pages, before, emitted, after)
    ensures Delivered(r, pages, all, if emitted.Some? then analytes + [emitted.value] else analytes, after)
  {
    hide Delivered, AnalyteOf, InRange;
    if emitted.Some? {
      assert before == [before[0]] + after;
      DeliverOne(r, pages, all, analytes, before[0], after);
    }
  }

  lemma {:induction false} BlocksStep<C, R>(r: Recognizer<C, R>, pages: seq<Page>, p: nat, i: nat)
    requires p < |pages| && i < LineCount(pages, p)
    ensures Blocks(r, pages, p, i) ==
            if !NamesAnalyte(r, pages, p, i) then Blocks(r, pages, p, i + 1)
            else
              match OwnReading(r, pages, p, i)
              case Some(reading) => [Block(Place(p, i, i), reading)] + Blocks(r, pages, p, i + 1)
              case None => Finish(r, pages, p, i, Follow(r, pages, p, i, i + 1, false))
  {
    hide NamesAnalyte, OwnReading, Finish, Follow, LineCount;
  }

  lemma {:induction false} NamesIs<C, R>(r: Recognizer<C, R>, pages: seq<Page>, p: nat, i: nat)
    requires p < |pages| && i < LineCount(pages, p) && ScannedLine(r, pages, p, i)
    ensures NamesAnalyte(r, pages, p, i) <==> r.canonicalAnalyte(Trimmed(r, pages, p, i)) != ""
  {
    hide ScannedLine, Trimmed;
  }

  lemma {:induction false} ScannedIsReadable<C, R>(r: Recognizer<C, R>, pages: seq<Page>, p: nat, i: nat)
    requires p < |pages| && i < LineCount(pages, p) && ScannedLine(r, pages, p, i)
    ensures Trimmed(r, pages, p, i) != "" && !SkippedBefore(r, pages, p, i + 1)
    ensures Breaks(r, pages, p, i) <==> NamesSample(r, pages, p, i)
  {
    hide SkippedBefore, NamesSample, Trimmed, SamplesBefore;
  }

  lemma {:induction false} ClosedDelivers<C, R>(r: Recognizer<C, R>, pages: seq<Page>, p: nat, i: nat, pending: Pending,
                                                first: nat, emitted: Analyte<R>)
    requires p < |pages| && first < i < LineCount(pages, p)
    requires Follow(r, pages, p, first, i, pending.unitSeen) == Closed(i)
    requires emitted == AnalyteOf(r, pages, Spread(r, pages, p, first, i))
    ensures Delivers(r, pages, ToCome(r, pages, p, i, Some(pending), first), Some(emitted),
                     ToCome(r, pages, p, i + 1, None, first))
  {
    hide *;
    SpreadIs(r, pages, p, first, i);
    FinishIs(r, pages, p, first, Closed(i));
    PendingToCome(r, pages, p, i, pending, first);
    NonePending(r, pages, p, i + 1, first);
    DeliversFirst(r, pages, Spread(r, pages, p, first, i), Blocks(r, pages, p, i + 1));
  }

  lemma {:induction false} PendingToCome<C, R>(r: Recognizer<C, R>, pages: seq<Page>, p: nat, i: nat, pending: Pending,
                                               first: nat)
    requires p < |pages| && first < i <= LineCount(pages, p)
    ensures ToCome(r, pages, p, i, Some(pending), first) ==
              Finish(r, pages, p, first, Follow(r, pages, p, first, i, pending.unitSeen))
  {
    hide Finish, Follow, LineCount;
  }

  lemma {:induction false} DeliversFirst<C, R>(r: Recognizer<C, R>, pages: seq<Page>, block: Block<R>,
                                               rest: seq<Block<R>>)
    requires InRange(pages, block.at)
    ensures Delivers(r, pages, [block] + rest, Some(AnalyteOf(r, pages, block)), rest)
  {
    hide InRange, AnalyteOf;
  }

  lemma {:induction false} WaitingDelivers<C, R>(r: Recognizer<C, R>, pages: seq<Page>, p: nat, i: nat,
                                                 pending: Pending, first: nat, next: Pending)
    requires p < |pages| && first < i < LineCount(pages, p)
    requires Follow(r, pages, p, first, i, pending.unitSeen) == Follow(r, pages, p, first, i + 1, next.unitSeen)
    ensures Delivers(r, pages, ToCome(r, pages, p, i, Some(pending), first), None,
                     ToCome(r, pages, p, i + 1, Some(next), first))
  {
    PendingToCome(r, pages, p, i, pending, first);
    PendingToCome(r, pages, p, i + 1, next, first);
    hide Finish, Follow, LineCount, ToCome;
  }

  lemma {:induction false} DroppedGoesOn<C, R>(r: Recognizer<C, R>, pages: seq<Page>, p: nat, i: nat, pending: Pending,
                                               first: nat)
    requires p < |pages| && first < i < LineCount(pages, p)
    requires Follow(r, pages, p, first, i, pending.unitSeen) == Dropped(i)
    ensures ToCome(r, pages, p, i, Some(pending), first) == Blocks(r, pages, p, i)
  {
    FinishIs(r, pages, p, first, Dropped(i));
    hide Finish, Follow, Blocks, LineCount;
  }

  lemma {:induction false} StartDelivers<C, R>(r: Recognizer<C, R>, pages: seq<Page>, p: nat, i: nat,
                                               next: Option<Pending>, emitted: Option<Analyte<R>>)
    requires p < |pages| && i < LineCount(pages, p)
    requires if !NamesAnalyte(r, pages, p, i) then next.None? && emitted.None?
             else match OwnReading(r, pages, p, i)
                  case Some(reading) =>
                    next.None? && InRange(pages, Place(p, i, i))
                      && emitted == Some(AnalyteOf(r, pages, Block(Place(p, i, i), reading)))
                  case None => emitted.None? && next.Some? && !next.value.unitSeen
    ensures Delivers(r, pages, Blocks(r, pages, p, i), emitted, ToCome(r, pages, p, i + 1, next, i))
  {
    BlocksStep(r, pages, p, i);
    hide NamesAnalyte, OwnReading, Follow, Finish, Blocks, AnalyteOf, LineCount, InRange;
  }

  /** What a line hands on: its result if it has one, and a pending one that began at line `origin`. */
  ghost predicate HandsOn<C, R>(r: Recognizer<C, R>, pages: seq<Page>, p: nat, i: nat, before: seq<Block<R>>,
                                next: Option<Pending>, emitted: Option<Analyte<R>>, origin: nat)
    requires p < |pages| && i < LineCount(pages, p)
  {
    && (next.Some? ==> PendingFrom(r, pages, p, i + 1, next.value, origin) && origin < i + 1)
    && Delivers(r, pages, before, emitted, ToCome(r, pages, p, i + 1, next, origin))
  }

  /** A line of the selected sample, outside any reference section. */
  method ReadLine<C, R>(r: Recognizer<C, R>, pages: seq<Page>, p: nat, i: nat, pending: Option<Pending>,
                        columns: Option<C>, line: Bytes, trimmed: Bytes, offset: int, ghost first: nat)
    returns (next: Option<Pending>, emitted: Option<Analyte<R>>)
    requires p < |pages| && i < LineCount(pages, p) && ScannedLine(r, pages, p, i)
    requires line == LineAt(pages, p, i) && trimmed == Trimmed(r, pages, p, i)
    requires offset == LineStart(Split(pages[p].text), i) && columns == ColumnsBefore(r, pages, p, i + 1)
    requires pending.Some? ==>
               !NamesSample(r, pages, p, i) && PendingFrom(r, pages, p, i, pending.value, first) && first < i
    ensures exists origin :: HandsOn(r, pages, p, i, ToCome(r, pages, p, i, pending, first), next, emitted, origin)
  {
    hide *;
    ScannedIsReadable(r, pages, p, i);
    NamesIs(r, pages, p, i);
    if pending.Some? {
      NextLine(pages, p, i);
      var grown, finished := ContinuePending(r, pages, p, i, pending.value, trimmed, offset + |line|, first);
      if finished.Some? {
        ClosedDelivers(r, pages, p, i, pending.value, first, finished.value);
        HandedOn(r, pages, p, i, ToCome(r, pages, p, i, pending, first), grown, finished, first);
        return grown, finished;
      }
      if grown.Some? {
        WaitingDelivers(r, pages, p, i, pending.value, first, grown.value);
        HandedOn(r, pages, p, i, ToCome(r, pages, p, i, pending, first), grown, finished, first);
        return grown, finished;
      }
      DroppedGoesOn(r, pages, p, i, pending.value, first);
    } else {
      NonePending(r, pages, p, i, first);
    }
    next, emitted := StartAnalyte(r, pages, p, i, columns, line, trimmed, offset);
    StartDelivers(r, pages, p, i, next, emitted);
    HandedOn(r, pages, p, i, ToCome(r, pages, p, i, pending, first), next, emitted, i);
  }

  lemma {:induction false} HandedOn<C, R>(r: Recognizer<C, R>, pages: seq<Page>, p: nat, i: nat, before: seq<Block<R>>,
                                          next: Option<Pending>, emitted: Option<Analyte<R>>, origin: nat)
    requires p < |pages| && i < LineCount(pages, p) && origin < i + 1
    requires next.Some? ==> PendingFrom(r, pages, p, i + 1, next.value, origin)
    requires Delivers(r, pages, before, emitted, ToCome(r, pages, p, i + 1, next, origin))
    ensures HandsOn(r, pages, p, i, before, next, emitted, origin)
  {
    hide PendingFrom, Delivers, ToCome, LineCount;
  }

  lemma {:induction false} NonePending<C, R>(r: Recognizer<C, R>, pages: seq<Page>, p: nat, i: nat, first: nat)
    requires p < |pages| && i <= LineCount(pages, p)
    ensures ToCome(r, pages, p, i, None, first) == Blocks(r, pages, p, i)
  {
    hide Blocks;
  }

  // ---------- the loops ----------

  lemma {:induction false} SampleTracked<C, R>(r: Recognizer<C, R>, pages: seq<Page>, p: nat, i: nat,
                                               selectedSample: string, active: bool)
    requires p < |pages| && i < LineCount(pages, p)
    requires SampleState(SamplesBefore(r, pages, p, i), selectedSample, active)
    ensures if NamesSample(r, pages, p, i) then
              var sample := r.sampleIdentifier(Trimmed(r, pages, p, i));
              var selected := if selectedSample == "" then sample else selectedSample;
              SampleState(SamplesBefore(r, pages, p, i + 1), selected, sample == selected)
            else SampleState(SamplesBefore(r, pages, p, i + 1), selectedSample, active)
  {
    SamplesStep(r, pages, p, i);
    LineIs(r, pages, p, i);
    hide SamplesBefore, NamesSample, Trimmed, LineCount;
    if !NamesSample(r, pages, p, i) { assert SamplesBefore(r, pages, p, i) + [] == SamplesBefore(r, pages, p, i); }
  }

  /** A line that is not blank and breaks what is pending. */
  lemma {:induction false} BrokenGoesOn<C, R>(r: Recognizer<C, R>, pages: seq<Page>, p: nat, i: nat,
                                              pending: Option<Pending>, first: nat)
    requires p < |pages| && i < LineCount(pages, p) && (pending.Some? ==> first < i)
    requires Trimmed(r, pages, p, i) != "" && Breaks(r, pages, p, i)
    ensures ToCome(r, pages, p, i, pending, first) == Blocks(r, pages, p, i)
  {
    if pending.Some? {
      BrokenIsDropped(r, pages, p, first, i, pending.value.unitSeen);
      DroppedGoesOn(r, pages, p, i, pending.value, first);
    }
    hide Blocks, Follow, Finish, LineCount;
  }

  lemma {:induction false} BrokenIsDropped<C, R>(r: Recognizer<C, R>, pages: seq<Page>, p: nat, first: nat, i: nat,
                                                 unitSeen: bool)
    requires p < |pages| && first < i < LineCount(pages, p) && Trimmed(r, pages, p, i) != "" && Breaks(r, pages, p, i)
    ensures Follow(r, pages, p, first, i, unitSeen) == Dropped(i)
  {
    hide Trimmed, Breaks, LineCount;
  }

  lemma {:induction false} LiveIs<C, R>(r: Recognizer<C, R>, pages: seq<Page>, p: nat, i: nat, selectedSample: string,
                                        active: bool)
    requires p < |pages| && i < LineCount(pages, p)
    requires SampleState(SamplesBefore(r, pages, p, i + 1), selectedSample, active)
    ensures LiveLine(r, pages, p, i) <==> Trimmed(r, pages, p, i) != "" && active
  {
    hide SamplesBefore, Trimmed;
  }

  /** How a line changes the table columns and the skipping. */
  lemma {:induction false} StateStep<C, R>(r: Recognizer<C, R>, pages: seq<Page>, p: nat, i: nat)
    requires p < |pages| && i < LineCount(pages, p)
    ensures ColumnsBefore(r, pages, p, i + 1) ==
            if LiveLine(r, pages, p, i) && r.header(LineAt(pages, p, i)).Some? then r.header(LineAt(pages, p, i))
              else ColumnsBefore(r, pages, p, i)
    ensures SkippedBefore(r, pages, p, i + 1) <==>
              SkippedBefore(r, pages, p, i) || (LiveLine(r, pages, p, i)
                                                && r.isReferenceSection(Trimmed(r, pages, p, i)))
  {
    hide LiveLine, Trimmed, LineAt, LineCount;
  }

  /** A line that is not read changes nothing of what is to come when nothing is pending. */
  lemma {:induction false} UnreadGoesOn<C, R>(r: Recognizer<C, R>, pages: seq<Page>, p: nat, i: nat)
    requires p < |pages| && i < LineCount(pages, p) && (!LiveLine(r, pages, p, i) || SkippedBefore(r, pages, p, i + 1))
    ensures Blocks(r, pages, p, i) == Blocks(r, pages, p, i + 1)
  {
    BlocksStep(r, pages, p, i);
    hide LiveLine, SkippedBefore, Blocks, OwnReading, Finish, Follow, LineCount;
  }

  lemma {:induction false} BlankGoesOn<C, R>(r: Recognizer<C, R>, pages: seq<Page>, p: nat, i: nat,
                                             pending: Option<Pending>, first: nat)
    requires p < |pages| && i < LineCount(pages, p) && (pending.Some? ==> first < i) && Trimmed(r, pages, p, i) == ""
    ensures ToCome(r, pages, p, i, pending, first) == ToCome(r, pages, p, i + 1, pending, first)
    ensures !LiveLine(r, pages, p, i) && !NamesSample(r, pages, p, i)
  {
    UnreadGoesOn(r, pages, p, i);
    hide SamplesBefore, Blocks, Finish, Trimmed, LineCount;
  }

  lemma {:induction false} BlankLineKeeps<C, R>(r: Recognizer<C, R>, pages: seq<Page>, p: nat, i: nat, c: Cursor<C, R>,
                                                all: seq<Block<R>>, first: nat)
    requires p < |pages| && i < LineCount(pages, p) && CursorOk(r, pages, p, i, c, all, first)
    requires Trimmed(r, pages, p, i) == ""
    ensures CursorOk(r, pages, p, i + 1, c, all, first)
  {
    hide SamplesBefore, SampleState, ColumnsBefore, SkippedBefore, PendingFrom, Delivered, ToCome, LiveLine,
      NamesSample, Trimmed, LineCount;
    BlankGoesOn(r, pages, p, i, Live(c), first);
    StateStep(r, pages, p, i);
    SampleTracked(r, pages, p, i, c.selectedSample, c.active);
    if Live(c).Some? {
      PendingGrows(r, pages, p, i, c.pending.value, first);
      assert c.pending.value.lines + [] == c.pending.value.lines;
    }
  }

  /** The scanner before line i, once its sample identifier has been looked at. */
  ghost predicate Tracked<C, R>(r: Recognizer<C, R>, pages: seq<Page>, p: nat, i: nat, c: Cursor<C, R>,
                                all: seq<Block<R>>, first: nat)
    requires p < |pages| && i < LineCount(pages, p)
  {
    && SampleState(SamplesBefore(r, pages, p, i + 1), c.selectedSample, c.active)
    && c.columns == ColumnsBefore(r, pages, p, i) && c.skip == SkippedBefore(r, pages, p, i)
    && (c.pending.Some? ==> c.active && !NamesSample(r, pages, p, i))
    && (Live(c).Some? ==> PendingFrom(r, pages, p, i, c.pending.value, first) && first < i)
    && Delivered(r, pages, all, c.analytes, ToCome(r, pages, p, i, Live(c), first))
  }

  /** The first sample named is the selected one; naming a sample drops what is pending. */
  method TrackSample<C, R>(r: Recognizer<C, R>, pages: seq<Page>, p: nat, i: nat, c: Cursor<C, R>, trimmed: Bytes,
                           ghost all: seq<Block<R>>, ghost first: nat) returns (d: Cursor<C, R>)
    requires p < |pages| && i < LineCount(pages, p) && CursorOk(r, pages, p, i, c, all, first)
    requires trimmed == Trimmed(r, pages, p, i) && trimmed != ""
    ensures Tracked(r, pages, p, i, d, all, first)
  {
    hide SamplesBefore, SampleState, ColumnsBefore, SkippedBefore, PendingFrom, Delivered, ToCome, Trimmed, LineCount,
      Breaks;
    SampleTracked(r, pages, p, i, c.selectedSample, c.active);
    d := c;
    var sample := r.sampleIdentifier(trimmed);
    if sample != "" {
      NamingBreaks(r, pages, p, i);
      BrokenGoesOn(r, pages, p, i, Live(c), first);
      BrokenGoesOn(r, pages, p, i, None, first);
      if d.selectedSample == "" { d := d.(selectedSample := sample); }
      d := d.(active := sample == d.selectedSample, pending := None);
    }
  }

  lemma {:induction false} NamingBreaks<C, R>(r: Recognizer<C, R>, pages: seq<Page>, p: nat, i: nat)
    requires p < |pages| && i < LineCount(pages, p) && NamesSample(r, pages, p, i)
    ensures Breaks(r, pages, p, i) && Trimmed(r, pages, p, i) != ""
  {
    hide SkippedBefore, Trimmed;
  }

  /** A line that is not read: of another sample, or in a reference section. */
  lemma {:induction false} UnreadLineKeeps<C, R>(r: Recognizer<C, R>, pages: seq<Page>, p: nat, i: nat, c: Cursor<C, R>,
                                                 d: Cursor<C, R>, all: seq<Block<R>>, first: nat)
    requires p < |pages| && i < LineCount(pages, p) && Tracked(r, pages, p, i, c, all, first)
    requires Trimmed(r, pages, p, i) != ""
    requires d.selectedSample == c.selectedSample && d.active == c.active && d.pending == c.pending
    requires d.analytes == c.analytes
    requires d.columns == ColumnsBefore(r, pages, p, i + 1) && d.skip == SkippedBefore(r, pages, p, i + 1)
    requires !d.active || d.skip
    ensures CursorOk(r, pages, p, i + 1, d, all, first)
  {
    hide SamplesBefore, SampleState, ColumnsBefore, SkippedBefore, PendingFrom, Delivered, ToCome, Trimmed, LineCount,
      Breaks, LiveLine, NamesSample, Blocks;
    LiveIs(r, pages, p, i, c.selectedSample, c.active);
    UnreadGoesOn(r, pages, p, i);
    if Live(c).Some? { SkippingBreaks(r, pages, p, i); BrokenGoesOn(r, pages, p, i, Live(c), first); }
    NonePending(r, pages, p, i, first);
    NonePending(r, pages, p, i + 1, first);
  }

  lemma {:induction false} SkippingBreaks<C, R>(r: Recognizer<C, R>, pages: seq<Page>, p: nat, i: nat)
    requires p < |pages| && i < LineCount(pages, p) && SkippedBefore(r, pages, p, i + 1)
    ensures Breaks(r, pages, p, i)
  {
    hide SkippedBefore, NamesSample;
  }

  lemma {:induction false} ReadLineKeeps<C, R>(r: Recognizer<C, R>, pages: seq<Page>, p: nat, i: nat, c: Cursor<C, R>,
                                               d: Cursor<C, R>, all: seq<Block<R>>, first: nat,
                                               emitted: Option<Analyte<R>>, origin: nat)
    requires p < |pages| && i < LineCount(pages, p) && Tracked(r, pages, p, i, c, all, first)
    requires c.active && !c.skip && d.active && !d.skip && d.selectedSample == c.selectedSample
    requires d.columns == ColumnsBefore(r, pages, p, i + 1) && !SkippedBefore(r, pages, p, i + 1)
    requires d.analytes == if emitted.Some? then c.analytes + [emitted.value] else c.analytes
    requires HandsOn(r, pages, p, i, ToCome(r, pages, p, i, c.pending, first), d.pending, emitted, origin)
    ensures CursorOk(r, pages, p, i + 1, d, all, origin)
  {
    hide SamplesBefore, SampleState, ColumnsBefore, SkippedBefore, PendingFrom, Delivered, ToCome, LineCount,
      NamesSample, Delivers;
    DeliversMore(r, pages, all, c.analytes, ToCome(r, pages, p, i, c.pending, first), emitted,
                 ToCome(r, pages, p, i + 1, d.pending, origin));
  }

  /** One turn of the line loop. */
  method ScanLine<C, R>(r: Recognizer<C, R>, pages: seq<Page>, p: nat, i: nat, c: Cursor<C, R>, line: Bytes,
                        offset: int, ghost all: seq<Block<R>>) returns (d: Cursor<C, R>)
    requires p < |pages| && i < LineCount(pages, p) && ScannedTo(r, pages, p, i, c, all)
    requires line == LineAt(pages, p, i) && offset == LineStart(Split(pages[p].text), i)
    ensures ScannedTo(r, pages, p, i + 1, d, all)
  {
    TrimmedIs(r, pages, p, i);
    hide *;
    ghost var first := PendingBegan(r, pages, p, i, c, all);
    d := c;
    var trimmed := r.trim(line);
    if trimmed == "" {
      BlankLineKeeps(r, pages, p, i, c, all, first);
      ScannedHere(r, pages, p, i + 1, c, all, first);
      return;
    }
    d := TrackSample(r, pages, p, i, c, trimmed, all, first);
    ghost var tracked := d;
    TrackedState(r, pages, p, i, d, all, first);
    LiveIs(r, pages, p, i, d.selectedSample, d.active);
    StateStep(r, pages, p, i);
    if !d.active {
      UnreadLineKeeps(r, pages, p, i, tracked, d, all, first);
      ScannedHere(r, pages, p, i + 1, d, all, first);
      return;
    }
    var header := r.header(line);
    if header.Some? { d := d.(columns := header); }
    if r.isReferenceSection(trimmed) { d := d.(skip := true); }
    if d.skip {
      UnreadLineKeeps(r, pages, p, i, tracked, d, all, first);
      ScannedHere(r, pages, p, i + 1, d, all, first);
      return;
    }
    LiveIsScanned(r, pages, p, i);
    var next, emitted := ReadLine(r, pages, p, i, d.pending, d.columns, line, trimmed, offset, first);
    ghost var origin :| HandsOn(r, pages, p, i, ToCome(r, pages, p, i, d.pending, first), next, emitted, origin);
    d := d.(pending := next);
    if emitted.Some? { d := d.(analytes := d.analytes + [emitted.value]); }
    ReadLineKeeps(r, pages, p, i, tracked, d, all, first, emitted, origin);
    ScannedHere(r, pages, p, i + 1, d, all, origin);
  }

  lemma {:induction false} TrimmedIs<C, R>(r: Recognizer<C, R>, pages: seq<Page>, p: nat, i: nat)
    requires p < |pages| && i < LineCount(pages, p)
    ensures Trimmed(r, pages, p, i) == r.trim(LineAt(pages, p, i))
  {}

  lemma {:induction false} LiveIsScanned<C, R>(r: Recognizer<C, R>, pages: seq<Page>, p: nat, i: nat)
    requires p < |pages| && i < LineCount(pages, p) && LiveLine(r, pages, p, i) && !SkippedBefore(r, pages, p, i + 1)
    ensures ScannedLine(r, pages, p, i)
  {
    hide LiveLine, SkippedBefore;
  }

  lemma {:induction false} TrackedState<C, R>(r: Recognizer<C, R>, pages: seq<Page>, p: nat, i: nat, c: Cursor<C, R>,
                                              all: seq<Block<R>>, first: nat)
    requires p < |pages| && i < LineCount(pages, p) && Tracked(r, pages, p, i, c, all, first)
    ensures SampleState(SamplesBefore(r, pages, p, i + 1), c.selectedSample, c.active)
    ensures c.columns == ColumnsBefore(r, pages, p, i) && c.skip == SkippedBefore(r, pages, p, i)
    ensures c.pending.Some? ==> c.active && !NamesSample(r, pages, p, i)
    ensures c.pending.Some? && !c.skip ==> PendingFrom(r, pages, p, i, c.pending.value, first) && first < i
  {
    hide SamplesBefore, SampleState, ColumnsBefore, SkippedBefore, PendingFrom, Delivered, ToCome, LineCount,
      NamesSample;
  }

  /** The scanner before page p: everything of the pages before it has been delivered. */
  ghost predicate PageOk<C, R>(r: Recognizer<C, R>, pages: seq<Page>, p: nat, c: Carried<C, R>)
    requires p < |pages|
  {
    && SampleState(SamplesBefore(r, pages, p, 0), c.selectedSample, c.active)
    && c.columns == ColumnsBefore(r, pages, p, 0)
    && Quotes(r, pages, c.analytes, BlocksBefore(r, pages, p))
  }

  lemma {:induction false} PageStarts<C, R>(r: Recognizer<C, R>, pages: seq<Page>, p: nat, c: Carried<C, R>)
    requires p < |pages| && PageOk(r, pages, p, c)
    ensures CursorOk(r, pages, p, 0, Cursor(c.selectedSample, c.active, c.columns, c.analytes, None, false),
                     BlocksBefore(r, pages, p + 1), 0)
  {
    NonePending(r, pages, p, 0, 0);
    hide SamplesBefore, SampleState, ColumnsBefore, Quotes, ToCome, Blocks;
    var before, all := BlocksBefore(r, pages, p), BlocksBefore(r, pages, p + 1);
    QuotesLength(r, pages, c.analytes, before);
    assert all[..|before|] == before && all[|before|..] == Blocks(r, pages, p, 0);
  }

  lemma {:induction false} QuotesLength<C, R>(r: Recognizer<C, R>, pages: seq<Page>, analytes: seq<Analyte<R>>,
                                              blocks: seq<Block<R>>)
    requires Quotes(r, pages, analytes, blocks)
    ensures |analytes| == |blocks|
  {
    hide AnalyteOf, InRange;
  }

  lemma {:induction false} PageEnds<C, R>(r: Recognizer<C, R>, pages: seq<Page>, p: nat, c: Cursor<C, R>, first: nat)
    requires p < |pages| && CursorOk(r, pages, p, LineCount(pages, p), c, BlocksBefore(r, pages, p + 1), first)
    ensures Quotes(r, pages, c.analytes, BlocksBefore(r, pages, p + 1))
    ensures SampleState(SamplesBefore(r, pages, p, LineCount(pages, p)), c.selectedSample, c.active)
    ensures c.columns == ColumnsBefore(r, pages, p, LineCount(pages, p))
  {
    NothingToCome(r, pages, p, Live(c), first);
    hide SamplesBefore, SampleState, ColumnsBefore, SkippedBefore, PendingFrom, Quotes, ToCome, BlocksBefore, LineCount;
    var all := BlocksBefore(r, pages, p + 1);
    assert all[|c.analytes|..] == [];
    assert all[..|c.analytes|] == all;
  }

  lemma {:induction false} NothingToCome<C, R>(r: Recognizer<C, R>, pages: seq<Page>, p: nat, pending: Option<Pending>,
                                               first: nat)
    requires p < |pages| && (pending.Some? ==> first < LineCount(pages, p))
    ensures ToCome(r, pages, p, LineCount(pages, p), pending, first) == []
  {
    var n := LineCount(pages, p);
    assert Blocks(r, pages, p, n) == [];
    if pending.Some? {
      assert Follow(r, pages, p, first, n, pending.value.unitSeen) == Dropped(n);
      FinishIs(r, pages, p, first, Dropped(n));
    }
    hide LineCount, Blocks, Follow, Finish;
  }

  /** The scanner over one page. */
  method ScanPage<C, R>(r: Recognizer<C, R>, pages: seq<Page>, p: nat, carried: Carried<C, R>)
    returns (next: Carried<C, R>)
    requires p < |pages| && PageOk(r, pages, p, carried)
    ensures Quotes(r, pages, next.analytes, BlocksBefore(r, pages, p + 1))
    ensures p + 1 < |pages| ==> PageOk(r, pages, p + 1, next)
  {
    ghost var all := BlocksBefore(r, pages, p + 1);
    var lines := Split(pages[p].text);
    var c := Cursor(carried.selectedSample, carried.active, carried.columns, carried.analytes, None, false);
    var offset := 0;
    PageStarts(r, pages, p, carried);
    ScannedHere(r, pages, p, 0, c, all, 0);
    assert LineStart(lines, 0) == 0 && |lines| == LineCount(pages, p);
    hide *;
    for i := 0 to |lines|
      invariant offset == LineStart(lines, i) && ScannedTo(r, pages, p, i, c, all)
    {
      NextLine(pages, p, i);
      ReadsLine(pages, p, i);
      c := ScanLine(r, pages, p, i, c, lines[i], offset, all);
      offset := offset + |lines[i]| + 1;
    }
    ghost var first := PendingBegan(r, pages, p, |lines|, c, all);
    PageEnds(r, pages, p, c, first);
    next := Carried(c.selectedSample, c.active, c.columns, c.analytes);
    if p + 1 < |pages| { NextPage(r, pages, p, next); }
  }

  lemma {:induction false} ReadsLine(pages: seq<Page>, p: nat, i: nat)
    requires p < |pages| && i < LineCount(pages, p)
    ensures i < |Split(pages[p].text)| && LineAt(pages, p, i) == Split(pages[p].text)[i]
  {
    hide Split;
  }

  lemma {:induction false} NextPage<C, R>(r: Recognizer<C, R>, pages: seq<Page>, p: nat, c: Carried<C, R>)
    requires p + 1 < |pages| && Quotes(r, pages, c.analytes, BlocksBefore(r, pages, p + 1))
    requires SampleState(SamplesBefore(r, pages, p, LineCount(pages, p)), c.selectedSample, c.active)
    requires c.columns == ColumnsBefore(r, pages, p, LineCount(pages, p))
    ensures PageOk(r, pages, p + 1, c)
  {
    SamplesCarryOver(r, pages, p);
    ColumnsCarryOver(r, pages, p);
    hide SamplesBefore, SampleState, ColumnsBefore, Quotes, BlocksBefore, LineCount;
  }

  lemma {:induction false} SamplesCarryOver<C, R>(r: Recognizer<C, R>, pages: seq<Page>, p: nat)
    requires p + 1 < |pages|
    ensures SamplesBefore(r, pages, p + 1, 0) == SamplesBefore(r, pages, p, LineCount(pages, p))
  {
    SamplesUnfold(r, pages, p + 1, 0);
    hide Split, SamplesBefore;
    assert EarlierSamples(r, pages, p + 1) + [] == EarlierSamples(r, pages, p + 1);
  }

  lemma {:induction false} ColumnsCarryOver<C, R>(r: Recognizer<C, R>, pages: seq<Page>, p: nat)
    requires p + 1 < |pages|
    ensures ColumnsBefore(r, pages, p + 1, 0) == ColumnsBefore(r, pages, p, LineCount(pages, p))
  {
    hide LiveLine, LineAt, LineCount;
  }

  lemma {:induction false} FirstPage<C, R>(r: Recognizer<C, R>, pages: seq<Page>)
    requires |pages| > 0
    ensures PageOk(r, pages, 0, Carried("", true, None, []))
  {
    SamplesUnfold(r, pages, 0, 0);
    hide Split, SamplesBefore;
  }

  /** `parsePDFPages`: the analytes are exactly the results of the pages, with their sources. */
  method ParsePdfPages<C, R>(r: Recognizer<C, R>, pages: seq<Page>) returns (analytes: seq<Analyte<R>>)
    ensures Quotes(r, pages, analytes, BlocksBefore(r, pages, |pages|))
  {
    var carried: Carried<C, R> := Carried("", true, None, []);
    if |pages| > 0 { FirstPage(r, pages); }
    assert Quotes(r, pages, carried.analytes, BlocksBefore(r, pages, 0));
    hide *;
    for p := 0 to |pages|
      invariant p < |pages| ==> PageOk(r, pages, p, carried)
      invariant Quotes(r, pages, carried.analytes, BlocksBefore(r, pages, p))
    {
      carried := ScanPage(r, pages, p, carried);
    }
    analytes := carried.analytes;
  }
}
