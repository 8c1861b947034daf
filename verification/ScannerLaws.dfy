/**
  What the scan of a report carries from line to line: the reference section it skips, the table
  header in force, and what a line says on its own.
*/
module ScannerLaws {
  import opened Wrappers
  import opened PdfScanner

  /** Line j of page q comes before line i of page p. */
  predicate Earlier(q: nat, j: nat, p: nat, i: nat) { q < p || (q == p && j < i) }

  /** A section is skipped from the line of the selected sample that begins it to the end of its page. */
  lemma {:induction false} SkippedExactly<C, R>(r: Recognizer<C, R>, pages: seq<Page>, p: nat, i: nat)
    requires p < |pages| && i <= LineCount(pages, p)
    ensures SkippedBefore(r, pages, p, i) <==>
            exists j: nat :: j < i && LiveLine(r, pages, p, j) && r.isReferenceSection(Trimmed(r, pages, p, j))
  {
    hide LiveLine, Trimmed, LineCount;
    if i > 0 { SkippedExactly(r, pages, p, i - 1); }
  }

  /** Line j of page q is a header of the selected sample's table. */
  ghost predicate HeaderAt<C(!new), R>(r: Recognizer<C, R>, pages: seq<Page>, q: nat, j: nat, c: C) {
    && q < |pages| && j < LineCount(pages, q) && LiveLine(r, pages, q, j)
    && r.header(LineAt(pages, q, j)) == Some(c)
  }

  /** Of the headers before line i of page p, the one on line j of page q is the last. */
  ghost predicate LastHeaderAt<C(!new), R>(r: Recognizer<C, R>, pages: seq<Page>, p: nat, i: nat, q: nat, j: nat,
                                           c: C) {
    && Earlier(q, j, p, i) && HeaderAt(r, pages, q, j, c)
    && forall q': nat, j': nat, c' :: HeaderAt(r, pages, q', j', c') && Earlier(q, j, q', j') ==> !Earlier(q', j', p, i)
  }

  ghost predicate HeaderInForce<C(!new), R>(r: Recognizer<C, R>, pages: seq<Page>, p: nat, i: nat, c: C) {
    exists q: nat, j: nat :: LastHeaderAt(r, pages, p, i, q, j, c)
  }

  ghost predicate NoHeader<C(!new), R>(r: Recognizer<C, R>, pages: seq<Page>, p: nat, i: nat) {
    forall c :: !HeaderInForce(r, pages, p, i, c)
  }

  /** The header in force is the last one before a line, on its page or an earlier one. */
  lemma {:induction false} ColumnsExactly<C(!new), R>(r: Recognizer<C, R>, pages: seq<Page>, p: nat, i: nat, c: C)
    requires p < |pages| && i <= LineCount(pages, p)
    ensures ColumnsBefore(r, pages, p, i) == Some(c) <==> HeaderInForce(r, pages, p, i, c)
    decreases p, i
  {
    hide LiveLine, LineCount;
    if i > 0 {
      ColumnsExactly(r, pages, p, i - 1, c);
      LineDecides(r, pages, p, i, c);
    } else if p > 0 {
      ColumnsExactly(r, pages, p - 1, LineCount(pages, p - 1), c);
      PageDecides(r, pages, p, c);
    }
  }

  lemma {:induction false} LineDecides<C(!new), R>(r: Recognizer<C, R>, pages: seq<Page>, p: nat, i: nat, c: C)
    requires p < |pages| && 0 < i <= LineCount(pages, p)
    ensures HeaderInForce(r, pages, p, i, c) <==>
            if LiveLine(r, pages, p, i - 1) && r.header(LineAt(pages, p, i - 1)).Some?
            then HeaderAt(r, pages, p, i - 1, c)
            else HeaderInForce(r, pages, p, i - 1, c)
  {
    hide LiveLine, LineCount;
    if LiveLine(r, pages, p, i - 1) && r.header(LineAt(pages, p, i - 1)).Some? {
      var d := r.header(LineAt(pages, p, i - 1)).value;
      assert HeaderAt(r, pages, p, i - 1, d);
      hide HeaderAt;
      if HeaderAt(r, pages, p, i - 1, c) { assert LastHeaderAt(r, pages, p, i, p, i - 1, c); }
      if HeaderInForce(r, pages, p, i, c) {
        var q: nat, j: nat :| LastHeaderAt(r, pages, p, i, q, j, c);
        assert Earlier(p, i - 1, p, i);
        assert !Earlier(q, j, p, i - 1);
        assert q == p && j == i - 1;
      }
    } else {
      var k: nat := i - 1;
      assert forall d :: !HeaderAt(r, pages, p, k, d);
      hide HeaderAt;
      if HeaderInForce(r, pages, p, i, c) {
        var q: nat, j: nat :| LastHeaderAt(r, pages, p, i, q, j, c);
        assert LastHeaderAt(r, pages, p, i - 1, q, j, c);
      }
      if HeaderInForce(r, pages, p, i - 1, c) {
        var q: nat, j: nat :| LastHeaderAt(r, pages, p, i - 1, q, j, c);
        assert LastHeaderAt(r, pages, p, i, q, j, c);
      }
    }
  }

  /** The same headers come before either of two lines. */
  ghost predicate SameBefore<C(!new), R>(r: Recognizer<C, R>, pages: seq<Page>, p: nat, i: nat, p': nat, i': nat) {
    forall q: nat, j: nat, c :: HeaderAt(r, pages, q, j, c) ==> (Earlier(q, j, p, i) <==> Earlier(q, j, p', i'))
  }

  lemma {:induction false} SameInForce<C(!new), R>(r: Recognizer<C, R>, pages: seq<Page>, p: nat, i: nat, p': nat,
                                                   i': nat, c: C)
    requires SameBefore(r, pages, p, i, p', i') && HeaderInForce(r, pages, p, i, c)
    ensures HeaderInForce(r, pages, p', i', c)
  {
    hide HeaderAt, Earlier;
    var q: nat, j: nat :| LastHeaderAt(r, pages, p, i, q, j, c);
    assert HeaderAt(r, pages, q, j, c);
    forall q': nat, j': nat, c' | HeaderAt(r, pages, q', j', c') && Earlier(q, j, q', j')
      ensures !Earlier(q', j', p', i') {}
    assert LastHeaderAt(r, pages, p', i', q, j, c);
  }

  lemma {:induction false} PageDecides<C(!new), R>(r: Recognizer<C, R>, pages: seq<Page>, p: nat, c: C)
    requires 0 < p < |pages|
    ensures HeaderInForce(r, pages, p, 0, c) <==> HeaderInForce(r, pages, p - 1, LineCount(pages, p - 1), c)
  {
    var before: nat, n := p - 1, LineCount(pages, p - 1);
    assert SameBefore(r, pages, p, 0, before, n) && SameBefore(r, pages, before, n, p, 0);
    hide SameBefore, HeaderInForce, LineCount;
    if HeaderInForce(r, pages, p, 0, c) { SameInForce(r, pages, p, 0, before, n, c); }
    if HeaderInForce(r, pages, before, n, c) { SameInForce(r, pages, before, n, p, 0, c); }
  }

  /**
    What a line says on its own: by the columns of the header in force if they fit, or else by its
    text if it has a unit.
  */
  lemma {:induction false} OwnExactly<C(!new), R>(r: Recognizer<C, R>, pages: seq<Page>, p: nat, i: nat, c: C)
    requires p < |pages| && i < LineCount(pages, p)
    ensures var line, name := r.trim(LineAt(pages, p, i)), r.canonicalAnalyte(r.trim(LineAt(pages, p, i)));
            && (HeaderInForce(r, pages, p, i + 1, c) ==>
                  && (r.tableReading(name, LineAt(pages, p, i), c).Some? ==>
                        OwnReading(r, pages, p, i) == r.tableReading(name, LineAt(pages, p, i), c))
                  && (r.tableReading(name, LineAt(pages, p, i), c).None? ==>
                        OwnReading(r, pages, p, i) ==
                        if r.hasUnit(line) then Some(r.lineReading(name, line, Some(c))) else None))
            && (NoHeader(r, pages, p, i + 1) ==>
                  OwnReading(r, pages, p, i) ==
                  if r.hasUnit(line) then Some(r.lineReading(name, line, None)) else None)
  {
    ColumnsExactly(r, pages, p, i + 1, c);
    var columns := ColumnsBefore(r, pages, p, i + 1);
    if columns.Some? { ColumnsExactly(r, pages, p, i + 1, columns.value); }
    hide HeaderInForce, ColumnsBefore, LineCount;
  }
}
