/**
  What an aggregate says about the observations it was made of: the counts, the indices and the
  provenance of the usable ones, and the value under each rule.
*/
module AggregationLaws {
  import opened Wrappers
  import opened Aggregation
  import opened Counting
  import Sorting

  // ---------- counting by position ----------

  lemma {:induction false} StatusesCounted(observations: seq<Observation>, status: string)
    ensures |WithStatus(observations, status)| == |Positions(observations, (o: Observation) => o.status == status)|
  {
    if |observations| == 0 {
      NoPositions(observations, (o: Observation) => o.status == status);
    } else {
      StatusesCounted(observations[..|observations| - 1], status);
      PositionsStep(observations, (o: Observation) => o.status == status);
    }
  }

  lemma {:induction false} OccurrencesCounted(ok: seq<Observation>, key: string)
    ensures Occurrences(ok, key) == |Positions(ok, (o: Observation) => o.value == key)|
  {
    if |ok| == 0 {
      NoPositions(ok, (o: Observation) => o.value == key);
    } else {
      OccurrencesCounted(ok[..|ok| - 1], key);
      PositionsStep(ok, (o: Observation) => o.value == key);
    }
  }

  lemma {:induction false} ReadsCounted(d: Decoders, ok: seq<Observation>, x: real)
    ensures Reads(d, ok, x) == |Positions(ok, (o: Observation) => d.numberOf(o.value) == Some(x))|
  {
    if |ok| == 0 {
      NoPositions(ok, (o: Observation) => d.numberOf(o.value) == Some(x));
    } else {
      ReadsCounted(d, ok[..|ok| - 1], x);
      PositionsStep(ok, (o: Observation) => d.numberOf(o.value) == Some(x));
    }
  }

  // ---------- the usable observations ----------

  lemma {:induction false} IndicesAt(ok: seq<Observation>)
    ensures |Indices(ok)| == |ok| && forall k :: 0 <= k < |ok| ==> Indices(ok)[k] == ok[k].index
  {
    if |ok| > 0 { IndicesAt(ok[..|ok| - 1]); }
  }

  /** A usable observation comes after as many usable ones as there are before it. */
  lemma {:induction false} UsablePlace(observations: seq<Observation>, n: nat)
    requires n < |observations| && observations[n].status == "ok"
    ensures var k := |Ok(observations[..n])|; k < |Ok(observations)| && Ok(observations)[k] == observations[n]
  {
    var last := |observations| - 1;
    if n < last {
      UsablePlace(observations[..last], n);
      assert observations[..last][..n] == observations[..n];
    }
  }

  ghost predicate Usable(observations: seq<Observation>, o: Observation) { o in observations && o.status == "ok" }

  lemma {:induction false} OkAreUsable(observations: seq<Observation>, o: Observation)
    ensures o in Ok(observations) <==> Usable(observations, o)
  {
    if |observations| > 0 {
      var n := |observations| - 1;
      OkAreUsable(observations[..n], o);
      assert observations == observations[..n] + [observations[n]];
    }
  }

  ghost function CountOf(observations: seq<Observation>, status: string): nat {
    |Positions(observations, (o: Observation) => o.status == status)|
  }

  /** The counts: usable, absent, and failed together with those that never arrived. */
  lemma {:induction false} CountsExactly(d: Decoders, rule: Rule, observations: seq<Observation>, sampleCount: int)
    ensures var r := Aggregated(d, rule, observations, sampleCount);
            && r.okCount == |r.sampleIndices| == CountOf(observations, "ok")
            && r.absentCount == CountOf(observations, "absent")
            && r.failedCount == CountOf(observations, "failed")
                + (if |observations| < sampleCount then sampleCount - |observations| else 0)
            && (r.state == Unavailable <==> CountOf(observations, "ok") == 0)
  {
    StatusesCounted(observations, "ok");
    StatusesCounted(observations, "absent");
    StatusesCounted(observations, "failed");
    IndicesAt(Ok(observations));
    hide Combined, SharedProvenance, WithStatus, Indices, Positions;
  }

  /** The indices of the usable observations are listed in order. */
  lemma {:induction false} IndicesInOrder(d: Decoders, rule: Rule, observations: seq<Observation>, sampleCount: int,
                                          n: nat)
    requires n < |observations| && observations[n].status == "ok"
    ensures var listed, k := Aggregated(d, rule, observations, sampleCount).sampleIndices,
              CountOf(observations[..n], "ok");
            k < |listed| && listed[k] == observations[n].index
  {
    StatusesCounted(observations[..n], "ok");
    UsablePlace(observations, n);
    IndicesAt(Ok(observations));
    hide Combined, SharedProvenance, WithStatus, Indices, Positions;
  }

  /** The unit and source of an aggregate are those all its usable observations share, the fetch their latest. */
  lemma {:induction false} ProvenanceExactly(d: Decoders, rule: Rule, observations: seq<Observation>, sampleCount: int,
                                             first: Observation)
    requires Usable(observations, first)
    ensures var p := Aggregated(d, rule, observations, sampleCount).provenance;
            var common := forall o :: Usable(observations, o) ==>
              o.source == first.source && o.sourceUrl == first.sourceUrl;
            && (if forall o :: Usable(observations, o) ==> o.unit == first.unit then p.unit == first.unit
                else p.unit == "")
            && (if common then p.source == first.source && p.sourceUrl == first.sourceUrl
                else p.source == "Multiple cited sources" && p.sourceUrl == "")
            && (p.fetchedAt.Some? ==> exists o :: Usable(observations, o) && o.fetchedAt == p.fetchedAt)
            && (forall o :: Usable(observations, o) && o.fetchedAt.Some? ==>
                  p.fetchedAt.Some? && o.fetchedAt.value <= p.fetchedAt.value)
  {
    var ok := Ok(observations);
    forall o ensures o in ok <==> Usable(observations, o) { OkAreUsable(observations, o); }
    assert first in ok;
    assert ok[0] in ok;
    LatestIsGreatest(ok);
    hide Combined, LatestOf, WithStatus, Ok, Indices;
    forall i | 0 <= i < |ok| ensures ok[i] in ok {}
  }

  // ---------- the values ----------

  /** What an observation must be to fit a rule. */
  predicate Fits(d: Decoders, rule: Rule, o: Observation) {
    match rule
    case AnyTrue => d.boolOf(o.value).Some?
    case Distribution => d.isCategory(o.value)
    case Unsupported => false
    case _ => d.numberOf(o.value).Some?
  }

  /** There is a value if and only if every observation fits the rule. */
  lemma {:induction false} FitsExactly(d: Decoders, rule: Rule, ok: seq<Observation>)
    requires |ok| > 0
    ensures Combined(d, rule, ok).Some? <==> forall o :: o in ok ==> Fits(d, rule, o)
  {
    FlagsExactly(d, ok);
    NumbersExactly(d, ok, 0.0);
    CategoriesByMember(d, ok);
    hide Flags, Numbers, Sorted, Entries, Keys, Sorting.SortBy, AllCategories;
    assert ok[0] in ok;
  }

  /** A field is aggregated if and only if every status is known and every usable observation fits the rule. */
  lemma {:induction false} AggregableExactly(d: Decoders, rule: Rule, observations: seq<Observation>)
    ensures Aggregable(d, rule, observations) <==>
            && (forall o :: o in observations ==> o.status in {"ok", "absent", "failed"})
            && (forall o :: Usable(observations, o) ==> Fits(d, rule, o))
  {
    var ok := Ok(observations);
    forall o ensures o in ok <==> Usable(observations, o) { OkAreUsable(observations, o); }
    if |ok| > 0 {
      FitsExactly(d, rule, ok);
      assert ok[0] in ok;
    }
    hide Combined, WithStatus, Ok;
    KnownByMember(observations);
  }

  /** Some observation reads as x. */
  ghost predicate IsRead(d: Decoders, ok: seq<Observation>, x: real) {
    exists o :: o in ok && d.numberOf(o.value) == Some(x)
  }

  lemma {:induction false} NumbersAreReads(d: Decoders, ok: seq<Observation>, x: real)
    requires Numbers(d, ok).Some?
    ensures x in Numbers(d, ok).value <==> IsRead(d, ok, x)
  {
    if |ok| > 0 {
      var n := |ok| - 1;
      NumbersAreReads(d, ok[..n], x);
      assert ok == ok[..n] + [ok[n]];
    }
  }

  /** The flag is the disjunction; a boundary is a value read that bounds all others. */
  lemma {:induction false} FlagAndBoundaries(d: Decoders, ok: seq<Observation>)
    requires |ok| > 0
    ensures var flag := Combined(d, AnyTrue, ok);
            flag.Some? ==>
                flag.value.Flag? && (flag.value.flag <==> exists o :: o in ok && d.boolOf(o.value) == Some(true))
    ensures var least := Combined(d, Minimum, ok);
            least.Some? ==>
              && least.value.Number? && IsRead(d, ok, least.value.number)
              && forall x :: IsRead(d, ok, x) ==> least.value.number <= x
    ensures var greatest := Combined(d, Maximum, ok);
            greatest.Some? ==>
              && greatest.value.Number? && IsRead(d, ok, greatest.value.number)
              && forall x :: IsRead(d, ok, x) ==> x <= greatest.value.number
  {
    FlagsExactly(d, ok);
    NumbersLength(d, ok);
    if Numbers(d, ok).Some? {
      var xs := Numbers(d, ok).value;
      SortedReals(xs);
      SortedEnds(xs, Sorted(xs));
      forall x ensures x in xs <==> IsRead(d, ok, x) { NumbersAreReads(d, ok, x); }
    }
    hide Flags, Numbers, Sorted, Entries, Keys, Sorting.SortBy, AllCategories, IsRead;
  }

  /** The values read, in ascending order, each as often as it was read. */
  ghost predicate ReadInOrder(d: Decoders, ok: seq<Observation>, s: seq<real>) {
    && |s| == |ok|
    && (forall i, j :: 0 <= i < j < |s| ==> s[i] <= s[j])
    && forall x :: multiset(s)[x] == |Positions(ok, (o: Observation) => d.numberOf(o.value) == Some(x))|
  }

  lemma {:induction false} SortedIsReadInOrder(d: Decoders, ok: seq<Observation>)
    requires Numbers(d, ok).Some?
    ensures ReadInOrder(d, ok, Sorted(Numbers(d, ok).value))
  {
    NumbersLength(d, ok);
    var xs := Numbers(d, ok).value;
    SortedReals(xs);
    hide Numbers, Sorted, Positions;
    forall x ensures multiset(Sorted(xs))[x] == |Positions(ok, (o: Observation) => d.numberOf(o.value) == Some(x))| {
      NumbersExactly(d, ok, x);
      ReadsCounted(d, ok, x);
    }
  }

  lemma {:induction false} MedianIsMean(s: seq<real>)
    requires |s| > 0
    ensures 2.0 * MedianOf(s) == s[(|s| - 1) / 2] + s[|s| / 2]
  {}

  /**
    A range has the ends and the middle of the values in order: of an even number of them, the mean
    of the middle two.
  */
  lemma {:induction false} RangeExactly(d: Decoders, ok: seq<Observation>) returns (s: seq<real>)
    requires |ok| > 0 && Combined(d, NumericRange, ok).Some?
    ensures var r := Combined(d, NumericRange, ok).value;
            && r.Range? && ReadInOrder(d, ok, s)
            && r.min == s[0] && r.max == s[|s| - 1]
            && 2.0 * r.median == s[(|s| - 1) / 2] + s[|s| / 2]
  {
    hide Numbers, Sorted, MedianOf, ReadInOrder;
    SortedIsReadInOrder(d, ok);
    s := Sorted(Numbers(d, ok).value);
    assert |s| == |ok| by { SortLength(Numbers(d, ok).value); NumbersLength(d, ok); }
    MedianIsMean(s);
  }

  predicate FirstDifferAt(a: string, b: string, i: int) {
    0 <= i < |a| && i < |b| && a[..i] == b[..i] && a[i] < b[i]
  }

  /** a comes before b where they first differ, or is the beginning of b. */
  ghost predicate ComesFirst(a: string, b: string) { a <= b || exists i :: FirstDifferAt(a, b, i) }

  lemma {:induction false} LexicographicExactly(a: string, b: string)
    ensures Lexicographic(a, b) <==> ComesFirst(a, b)
  {
    if |a| > 0 && |b| > 0 {
      if a[0] == b[0] {
        LexicographicExactly(a[1..], b[1..]);
        FirstLetterShared(a, b);
      } else {
        assert FirstDifferAt(a, b, 0) <==> a[0] < b[0];
        assert forall i :: 0 < i < |a| && i < |b| ==> a[..i][0] == a[0] && b[..i][0] == b[0];
      }
    }
  }

  lemma {:induction false} PrefixShared(a: string, b: string)
    requires |a| > 0 && |b| > 0 && a[0] == b[0]
    ensures a <= b <==> a[1..] <= b[1..]
  {
    assert a == [a[0]] + a[1..] && b == [b[0]] + b[1..];
    if a[1..] <= b[1..] { assert b[..|a|] == [b[0]] + b[1..][..|a| - 1]; }
  }

  lemma {:induction false} DifferOneOn(a: string, b: string, i: nat)
    requires |a| > 0 && |b| > 0 && a[0] == b[0]
    ensures FirstDifferAt(a, b, i + 1) <==> FirstDifferAt(a[1..], b[1..], i)
  {
    if i + 1 < |a| && i + 1 < |b| {
      assert a[..i + 1] == [a[0]] + a[1..][..i] && b[..i + 1] == [b[0]] + b[1..][..i];
      assert a[1..][..i] == a[..i + 1][1..] && b[1..][..i] == b[..i + 1][1..];
    }
  }

  lemma {:induction false} FirstLetterShared(a: string, b: string)
    requires |a| > 0 && |b| > 0 && a[0] == b[0]
    ensures ComesFirst(a, b) <==> ComesFirst(a[1..], b[1..])
  {
    PrefixShared(a, b);
    assert !FirstDifferAt(a, b, 0);
    forall i | FirstDifferAt(a, b, i) ensures FirstDifferAt(a[1..], b[1..], i - 1) { DifferOneOn(a, b, i - 1); }
    forall i | FirstDifferAt(a[1..], b[1..], i) ensures FirstDifferAt(a, b, i + 1) { DifferOneOn(a, b, i); }
    hide FirstDifferAt;
  }

  lemma {:induction false} CategoriesListed(d: Decoders, ok: seq<Observation>)
    requires |ok| > 0 && Combined(d, Distribution, ok).Some?
    ensures var v := Combined(d, Distribution, ok).value;
            v.Counts? && forall o :: o in ok ==> exists i :: 0 <= i < |v.entries| && v.entries[i].0 == o.value
  {
    SortedKeysFacts(ok);
    hide Keys, Lexicographic, Occurrences, Sorting.SortBy, Sorting.SortedBy, NoDuplicates, AllCategories;
    var keys := Sorting.SortBy(Keys(ok), Lexicographic);
    var entries := Combined(d, Distribution, ok).value.entries;
    assert entries == Entries(ok, keys);
    hide Combined;
    forall o | o in ok ensures exists i :: 0 <= i < |entries| && entries[i].0 == o.value {
      assert o.value in keys;
      var i :| 0 <= i < |keys| && keys[i] == o.value;
      assert entries[i].0 == o.value;
    }
  }

  /** A distribution lists each category met once, in string order, with the number of times it was met. */
  lemma {:induction false} DistributionExactly(d: Decoders, ok: seq<Observation>)
    requires |ok| > 0 && Combined(d, Distribution, ok).Some?
    ensures var v := Combined(d, Distribution, ok).value;
            && v.Counts?
            && (forall o :: o in ok ==> exists i :: 0 <= i < |v.entries| && v.entries[i].0 == o.value)
            && (forall i :: 0 <= i < |v.entries| ==>
                v.entries[i].1 == |Positions(ok, (o: Observation) => o.value == v.entries[i].0)| > 0)
            && (forall i, j :: 0 <= i < j < |v.entries| ==>
                v.entries[i].0 != v.entries[j].0 && ComesFirst(v.entries[i].0, v.entries[j].0))
  {
    DistributionCounts(d, ok);
    CategoriesListed(d, ok);
    var v := Combined(d, Distribution, ok).value;
    hide Combined, Lexicographic, Occurrences, Positions, Total, ComesFirst;
    forall i | 0 <= i < |v.entries|
      ensures v.entries[i].1 == |Positions(ok, (o: Observation) => o.value == v.entries[i].0)| {
      OccurrencesCounted(ok, v.entries[i].0);
    }
    forall i, j | 0 <= i < j < |v.entries| ensures ComesFirst(v.entries[i].0, v.entries[j].0) {
      LexicographicExactly(v.entries[i].0, v.entries[j].0);
    }
  }
}
