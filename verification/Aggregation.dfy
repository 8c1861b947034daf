/**
  Evidence aggregation: one field's sampled observations folded into a value, its provenance
  and its completeness.  Decoding of JSON values is left to `Decoders`.
*/
module Aggregation {
  import opened Wrappers
  import Sorting

  datatype Observation = Observation(
    index: int, status: string, value: string, unit: string, source: string, sourceUrl: string, fetchedAt: Option<int>)

  datatype Decoders = Decoders(boolOf: string -> Option<bool>, numberOf: string -> Option<real>,
                               isCategory: string -> bool)

  datatype Rule = AnyTrue | Minimum | Maximum | NumericRange | Distribution | Unsupported

  datatype Value =
    | NoValue
    | Flag(flag: bool)
    | Number(number: real)
    | Range(min: real, max: real, median: real)
    | Counts(entries: seq<(string, nat)>)

  datatype State = Unavailable | Partial | Complete

  datatype Provenance = Provenance(unit: string, source: string, sourceUrl: string, fetchedAt: Option<int>)

  datatype Aggregate = Aggregate(
    state: State, value: Value, provenance: Provenance, okCount: nat, absentCount: nat, failedCount: nat,
    sampleIndices: seq<int>)

  datatype Error = UnknownStatus(status: string) | BadValue

  // ---------- counting ----------

  predicate Known(o: Observation) { o.status == "ok" || o.status == "absent" || o.status == "failed" }

  function WithStatus(observations: seq<Observation>, status: string): seq<Observation> {
    if |observations| == 0 then []
    else
      WithStatus(observations[..|observations| - 1], status)
      + (if observations[|observations| - 1].status == status then [observations[|observations| - 1]] else [])
  }

  function Ok(observations: seq<Observation>): seq<Observation> { WithStatus(observations, "ok") }

  function Indices(observations: seq<Observation>): seq<int> {
    if |observations| == 0 then []
      else Indices(observations[..|observations| - 1]) + [observations[|observations| - 1].index]
  }

  function Missing(observations: seq<Observation>, sampleCount: int): nat {
    if sampleCount - |observations| > 0 then sampleCount - |observations| else 0
  }

  function StateOf(ok: nat, absent: nat, failed: nat, sampleCount: int): State {
    if ok == 0 then Unavailable
    else if ok != sampleCount || absent > 0 || failed > 0 then Partial
    else Complete
  }

  lemma {:induction false} StatusesCover(observations: seq<Observation>)
    requires forall i :: 0 <= i < |observations| ==> Known(observations[i])
    ensures |WithStatus(observations, "ok")| + |WithStatus(observations, "absent")|
            + |WithStatus(observations, "failed")| == |observations|
  {
    if |observations| > 0 { StatusesCover(observations[..|observations| - 1]); }
  }

  // ---------- provenance ----------

  const MultipleSources: string := "Multiple cited sources"

  predicate SameSource(a: Observation, b: Observation) { a.source == b.source && a.sourceUrl == b.sourceUrl }

  /** The later of two times, either of which may be missing. */
  function Latest(a: Option<int>, b: Option<int>): Option<int> {
    if b.Some? && (a.None? || b.value > a.value) then b else a
  }

  function LatestOf(ok: seq<Observation>): Option<int> {
    if |ok| == 0 then None else Latest(LatestOf(ok[..|ok| - 1]), ok[|ok| - 1].fetchedAt)
  }

  predicate AllUnits(ok: seq<Observation>, unit: string) { forall i :: 0 <= i < |ok| ==> ok[i].unit == unit }

  predicate AllSources(ok: seq<Observation>, first: Observation) {
    forall i :: 0 <= i < |ok| ==> SameSource(ok[i], first)
  }

  /** The common unit and source if there is one, and the latest fetch. */
  function SharedProvenance(ok: seq<Observation>): Provenance
    requires |ok| > 0
  {
    var common := AllSources(ok, ok[0]);
    Provenance(if AllUnits(ok, ok[0].unit) then ok[0].unit else "",
               if common then ok[0].source else MultipleSources,
               if common then ok[0].sourceUrl else "",
               LatestOf(ok))
  }

  /** `sharedProvenance` */
  method ShareProvenance(ok: seq<Observation>) returns (p: Provenance)
    requires |ok| > 0
    ensures p == SharedProvenance(ok)
  {
    var unit, source, sourceUrl := ok[0].unit, ok[0].source, ok[0].sourceUrl;
    var fetchedAt: Option<int> := None;
    assert AllUnits(ok[..0], ok[0].unit) && AllSources(ok[..0], ok[0]) && LatestOf(ok[..0]) == None;
    hide AllUnits, AllSources, LatestOf;
    for i := 0 to |ok|
      invariant unit == if AllUnits(ok[..i], ok[0].unit) then ok[0].unit else ""
      invariant source == if AllSources(ok[..i], ok[0]) then ok[0].source else MultipleSources
      invariant sourceUrl == if AllSources(ok[..i], ok[0]) then ok[0].sourceUrl else ""
      invariant fetchedAt == LatestOf(ok[..i])
    {
      var o := ok[i];
      LatestStep(ok, i);
      AllUnitsStep(ok, i);
      AllSourcesStep(ok, i);
      if o.unit != unit { unit := ""; }
      if o.source != source || o.sourceUrl != sourceUrl { source, sourceUrl := MultipleSources, ""; }
      if o.fetchedAt.Some? && (fetchedAt.None? || o.fetchedAt.value > fetchedAt.value) { fetchedAt := o.fetchedAt; }
    }
    assert ok[..|ok|] == ok;
    p := Provenance(unit, source, sourceUrl, fetchedAt);
  }

  lemma {:induction false} LatestStep(ok: seq<Observation>, i: nat)
    requires i < |ok|
    ensures LatestOf(ok[..i + 1]) == Latest(LatestOf(ok[..i]), ok[i].fetchedAt)
  {
    assert ok[..i + 1][..i] == ok[..i];
  }

  lemma {:induction false} AllUnitsStep(ok: seq<Observation>, i: nat)
    requires i < |ok|
    ensures AllUnits(ok[..i + 1], ok[0].unit) <==> AllUnits(ok[..i], ok[0].unit) && ok[i].unit == ok[0].unit
  {
    assert ok[..i + 1][i] == ok[i];
    assert forall k :: 0 <= k < i ==> ok[..i + 1][k] == ok[..i][k];
  }

  lemma {:induction false} AllSourcesStep(ok: seq<Observation>, i: nat)
    requires i < |ok|
    ensures AllSources(ok[..i + 1], ok[0]) <==> AllSources(ok[..i], ok[0]) && SameSource(ok[i], ok[0])
  {
    hide SameSource;
    assert ok[..i + 1][i] == ok[i];
    assert forall k :: 0 <= k < i ==> ok[..i + 1][k] == ok[..i][k];
  }

  // ---------- values ----------

  function Flags(d: Decoders, ok: seq<Observation>): Option<bool> {
    if |ok| == 0 then Some(false)
    else
      var front :- Flags(d, ok[..|ok| - 1]);
      var last :- d.boolOf(ok[|ok| - 1].value);
      Some(front || last)
  }

  /** The decoded numbers in order, or nothing when one does not decode. */
  function Numbers(d: Decoders, ok: seq<Observation>): Option<seq<real>> {
    if |ok| == 0 then Some([])
    else
      var front :- Numbers(d, ok[..|ok| - 1]);
      var last :- d.numberOf(ok[|ok| - 1].value);
      Some(front + [last])
  }

  predicate Ascending(x: real, y: real) { x <= y }

  function Sorted(values: seq<real>): seq<real> { Sorting.SortBy(values, Ascending) }

  function MedianOf(sorted: seq<real>): real
    requires |sorted| > 0
  {
    var middle := |sorted| / 2;
    if |sorted| % 2 == 0 then (sorted[middle - 1] + sorted[middle]) / 2.0 else sorted[middle]
  }

  function Keys(ok: seq<Observation>): seq<string> {
    if |ok| == 0 then []
    else
      var front := Keys(ok[..|ok| - 1]);
      if ok[|ok| - 1].value in front then front else front + [ok[|ok| - 1].value]
  }

  function Occurrences(ok: seq<Observation>, key: string): nat {
    if |ok| == 0 then 0 else Occurrences(ok[..|ok| - 1], key) + (if ok[|ok| - 1].value == key then 1 else 0)
  }

  /** `sort.Strings` order: by character, a prefix first. */
  predicate Lexicographic(a: string, b: string) {
    || |a| == 0
    || (|b| > 0 && (a[0] < b[0] || (a[0] == b[0] && Lexicographic(a[1..], b[1..]))))
  }

  function Entries(ok: seq<Observation>, keys: seq<string>): (r: seq<(string, nat)>)
    ensures |r| == |keys| && forall i :: 0 <= i < |r| ==> r[i] == (keys[i], Occurrences(ok, keys[i]))
  {
    seq(|keys|, i requires 0 <= i < |keys| => (keys[i], Occurrences(ok, keys[i])))
  }

  predicate AllCategories(d: Decoders, ok: seq<Observation>) { forall i :: 0 <= i < |ok| ==> d.isCategory(ok[i].value) }

  /** The value of a field under its aggregation rule, or nothing when an observation does not fit it. */
  function Combined(d: Decoders, rule: Rule, ok: seq<Observation>): (v: Option<Value>)
    requires |ok| > 0
  {
    match rule
    case AnyTrue =>
      (match Flags(d, ok) case None => None case Some(b) => Some(Flag(b)))
    case Minimum =>
      (match Numbers(d, ok) case None => None
       case Some(xs) => NumbersLength(d, ok); SortLength(xs); Some(Number(Sorted(xs)[0])))
    case Maximum =>
      (match Numbers(d, ok) case None => None
       case Some(xs) => NumbersLength(d, ok); SortLength(xs); Some(Number(Sorted(xs)[|xs| - 1])))
    case NumericRange =>
      (match Numbers(d, ok) case None => None
       case Some(xs) =>
         NumbersLength(d, ok);
         SortLength(xs);
         var s := Sorted(xs);
         Some(Range(s[0], s[|s| - 1], MedianOf(s))))
    case Distribution =>
      if AllCategories(d, ok) then Some(Counts(Entries(ok, Sorting.SortBy(Keys(ok), Lexicographic)))) else None
    case Unsupported => None
  }

  lemma {:induction false} NumbersLength(d: Decoders, ok: seq<Observation>)
    ensures Numbers(d, ok).Some? ==> |Numbers(d, ok).value| == |ok|
  {
    if |ok| > 0 { NumbersLength(d, ok[..|ok| - 1]); }
  }

  lemma {:induction false} SortLength(xs: seq<real>)
    ensures |Sorted(xs)| == |xs|
  {
    Sorting.SortPermutes(xs, Ascending);
  }

  // ---------- the aggregate ----------

  function Aggregated(d: Decoders, rule: Rule, observations: seq<Observation>, sampleCount: int): Aggregate
  {
    var ok, absent := Ok(observations), |WithStatus(observations, "absent")|;
    var failed := |WithStatus(observations, "failed")| + Missing(observations, sampleCount);
    var state := StateOf(|ok|, absent, failed, sampleCount);
    if |ok| == 0 then Aggregate(state, NoValue, Provenance("", "", "", None), 0, absent, failed, [])
    else
      var value := Combined(d, rule, ok);
      Aggregate(state, if value.Some? then value.value else NoValue, SharedProvenance(ok), |ok|, absent, failed,
                Indices(ok))
  }

  predicate Aggregable(d: Decoders, rule: Rule, observations: seq<Observation>) {
    && (forall i :: 0 <= i < |observations| ==> Known(observations[i]))
    && (|Ok(observations)| > 0 ==> Combined(d, rule, Ok(observations)).Some?)
  }

  /** The first observation of unknown status has this one. */
  ghost predicate FirstUnknown(observations: seq<Observation>, status: string) {
    exists i :: 0 <= i < |observations| && !Known(observations[i]) && observations[i].status == status
      && forall k :: 0 <= k < i ==> Known(observations[k])
  }

  /** `aggregateField` */
  method AggregateField(d: Decoders, rule: Rule, observations: seq<Observation>, sampleCount: int)
    returns (r: Result<Aggregate, Error>)
    ensures r.Success? <==> Aggregable(d, rule, observations)
    ensures r.Success? ==> r.value == Aggregated(d, rule, observations, sampleCount)
    ensures r.Failure? ==> (r.error.UnknownStatus? <==> exists i :: 0 <= i < |observations| && !Known(observations[i]))
    ensures r.Failure? && r.error.UnknownStatus? ==> FirstUnknown(observations, r.error.status)
  {
    hide Combined, SharedProvenance, WithStatus;
    var counted, ok, absentCount, failedCount := CountStatuses(observations);
    if counted.Some? { return Failure(UnknownStatus(counted.value)); }
    var okCount, sampleIndices := |ok|, Indices(ok);
    var missing := sampleCount - |observations|;
    if missing > 0 { failedCount := failedCount + missing; }
    if okCount == 0 {
      return Success(Aggregate(Unavailable, NoValue, Provenance("", "", "", None), 0, absentCount, failedCount, []));
    }
    var state := Complete;
    if okCount != sampleCount || absentCount > 0 || failedCount > 0 { state := Partial; }
    var provenance := ShareProvenance(ok);
    var value := Combine(d, rule, ok);
    if value.None? { return Failure(BadValue); }
    return Success(Aggregate(state, value.value, provenance, okCount, absentCount, failedCount, sampleIndices));
  }

  /** The pass that separates the statuses; it stops at the first unknown one. */
  method CountStatuses(observations: seq<Observation>)
    returns (unknown: Option<string>, ok: seq<Observation>, absentCount: nat, failedCount: nat)
    ensures unknown.None? <==> forall i :: 0 <= i < |observations| ==> Known(observations[i])
    ensures unknown.Some? ==> FirstUnknown(observations, unknown.value)
    ensures unknown.None? ==>
              && ok == Ok(observations)
              && absentCount == |WithStatus(observations, "absent")|
              && failedCount == |WithStatus(observations, "failed")|
  {
    ok, absentCount, failedCount := [], 0, 0;
    for i := 0 to |observations|
      invariant forall k :: 0 <= k < i ==> Known(observations[k])
      invariant ok == Ok(observations[..i])
      invariant absentCount == |WithStatus(observations[..i], "absent")|
      invariant failedCount == |WithStatus(observations[..i], "failed")|
    {
      var o := observations[i];
      assert observations[..i + 1][..i] == observations[..i];
      if o.status == "ok" {
        ok := ok + [o];
      } else if o.status == "absent" {
        absentCount := absentCount + 1;
      } else if o.status == "failed" {
        failedCount := failedCount + 1;
      } else {
        return Some(o.status), ok, absentCount, failedCount;
      }
    }
    assert observations[..|observations|] == observations;
    return None, ok, absentCount, failedCount;
  }

  /** The switch over the aggregation rules. */
  method Combine(d: Decoders, rule: Rule, ok: seq<Observation>) returns (value: Option<Value>)
    requires |ok| > 0
    ensures value == Combined(d, rule, ok)
  {
    NumbersLength(d, ok);
    match rule
    case AnyTrue =>
      var flag := AnyOf(d, ok);
      return if flag.None? then None else Some(Flag(flag.value));
    case Minimum =>
      var sorted := SortedNumbers(d, ok);
      return if sorted.None? then None else Some(Number(sorted.value[0]));
    case Maximum =>
      var sorted := SortedNumbers(d, ok);
      return if sorted.None? then None else Some(Number(sorted.value[|sorted.value| - 1]));
    case NumericRange =>
      var sorted := SortedNumbers(d, ok);
      if sorted.None? { return None; }
      var values := sorted.value;
      var middle := |values| / 2;
      var median := values[middle];
      if |values| % 2 == 0 { median := (values[middle - 1] + values[middle]) / 2.0; }
      return Some(Range(values[0], values[|values| - 1], median));
    case Distribution =>
      value := CountCategories(d, ok);
    case Unsupported =>
      return None;
  }

  /** `anyTrue` */
  method AnyOf(d: Decoders, ok: seq<Observation>) returns (flag: Option<bool>)
    ensures flag == Flags(d, ok)
  {
    var result := false;
    for i := 0 to |ok|
      invariant Flags(d, ok[..i]) == Some(result)
    {
      assert ok[..i + 1][..i] == ok[..i];
      var value := d.boolOf(ok[i].value);
      if value.None? {
        FlagsFail(d, ok, i + 1);
        return None;
      }
      result := result || value.value;
    }
    assert ok[..|ok|] == ok;
    return Some(result);
  }

  lemma {:induction false} FlagsFail(d: Decoders, ok: seq<Observation>, k: nat)
    requires k <= |ok| && Flags(d, ok[..k]).None?
    ensures Flags(d, ok).None?
  {
    if k < |ok| {
      assert ok[..|ok| - 1][..k] == ok[..k];
      FlagsFail(d, ok[..|ok| - 1], k);
    } else {
      assert ok[..k] == ok;
    }
  }

  /** `numericValues`, then sorted in ascending order */
  method SortedNumbers(d: Decoders, ok: seq<Observation>) returns (sorted: Option<seq<real>>)
    ensures sorted.Some? <==> Numbers(d, ok).Some?
    ensures sorted.Some? ==> sorted.value == Sorted(Numbers(d, ok).value) && |sorted.value| == |ok|
  {
    var values: seq<real> := [];
    for i := 0 to |ok|
      invariant Numbers(d, ok[..i]) == Some(values)
    {
      assert ok[..i + 1][..i] == ok[..i];
      var value := d.numberOf(ok[i].value);
      if value.None? {
        NumbersFail(d, ok, i + 1);
        return None;
      }
      values := values + [value.value];
    }
    assert ok[..|ok|] == ok;
    NumbersLength(d, ok);
    SortLength(values);
    var s := Sorting.Sort(values, Ascending);
    return Some(s);
  }

  lemma {:induction false} NumbersFail(d: Decoders, ok: seq<Observation>, k: nat)
    requires k <= |ok| && Numbers(d, ok[..k]).None?
    ensures Numbers(d, ok).None?
  {
    if k < |ok| {
      assert ok[..|ok| - 1][..k] == ok[..k];
      NumbersFail(d, ok[..|ok| - 1], k);
    } else {
      assert ok[..k] == ok;
    }
  }

  // ---------- distributions ----------

  lemma {:induction false} LexicographicTotal(a: string, b: string)
    ensures Lexicographic(a, b) || Lexicographic(b, a)
  {
    if |a| > 0 && |b| > 0 && a[0] == b[0] { LexicographicTotal(a[1..], b[1..]); }
  }

  lemma {:induction false} LexicographicAntisymmetric(a: string, b: string)
    requires Lexicographic(a, b) && Lexicographic(b, a)
    ensures a == b
  {
    if |a| > 0 && |b| > 0 {
      LexicographicAntisymmetric(a[1..], b[1..]);
      assert a == [a[0]] + a[1..] && b == [b[0]] + b[1..];
    }
  }

  lemma {:induction false} LexicographicTransitive(a: string, b: string, c: string)
    requires Lexicographic(a, b) && Lexicographic(b, c)
    ensures Lexicographic(a, c)
  {
    if |a| > 0 && a[0] == b[0] && b[0] == c[0] { LexicographicTransitive(a[1..], b[1..], c[1..]); }
  }

  lemma {:induction false} LexicographicOrders()
    ensures Sorting.TotalOrder(Lexicographic)
  {
    forall a, b ensures Lexicographic(a, b) || Lexicographic(b, a) { LexicographicTotal(a, b); }
    forall a, b | Lexicographic(a, b) && Lexicographic(b, a) ensures a == b { LexicographicAntisymmetric(a, b); }
    forall a, b, c | Lexicographic(a, b) && Lexicographic(b, c) ensures Lexicographic(a, c) {
      LexicographicTransitive(a, b, c);
    }
  }

  ghost predicate NoDuplicates(keys: seq<string>) { forall i, j :: 0 <= i < j < |keys| ==> keys[i] != keys[j] }

  lemma {:induction false} KeysAreValues(ok: seq<Observation>)
    ensures NoDuplicates(Keys(ok))
    ensures forall key :: key in Keys(ok) <==> Occurrences(ok, key) > 0
  {
    if |ok| > 0 { KeysAreValues(ok[..|ok| - 1]); }
  }

  /** Sequences without duplicates and with the same elements are permutations of each other. */
  lemma {:induction false} SameElementsPermute(a: seq<string>, b: seq<string>)
    requires NoDuplicates(a) && NoDuplicates(b) && forall key :: key in a <==> key in b
    ensures multiset(a) == multiset(b)
  {
    forall key ensures multiset(a)[key] == multiset(b)[key] {
      OnceOrNever(a, key);
      OnceOrNever(b, key);
    }
  }

  lemma {:induction false} OnceOrNever(a: seq<string>, key: string)
    requires NoDuplicates(a)
    ensures multiset(a)[key] == if key in a then 1 else 0
  {
    if |a| > 0 {
      var n := |a| - 1;
      OnceOrNever(a[..n], key);
      assert a == a[..n] + [a[n]];
    }
  }

  /** `distribution`: the keys come out of the map in no particular order, then are sorted. */
  method CountCategories(d: Decoders, ok: seq<Observation>) returns (value: Option<Value>)
    ensures value == if AllCategories(d, ok) then Some(Counts(Entries(ok, Sorting.SortBy(Keys(ok), Lexicographic))))
            else None
  {
    hide Occurrences, Keys, Lexicographic;
    var counted := CountKeys(d, ok);
    if counted.None? { return None; }
    var counts := counted.value;
    var keys := ListKeys(counts.Keys);
    SortedKeys(ok, keys, counts);
    var sorted := Sorting.Sort(keys, Lexicographic);
    assert forall i :: 0 <= i < |sorted| ==> sorted[i] in sorted;
    hide Sorting.SortBy, NoDuplicates;
    var entries := ListEntries(ok, sorted, counts);
    return Some(Counts(entries));
  }

  /** The result rows for sorted keys. */
  method ListEntries(ghost ok: seq<Observation>, sorted: seq<string>, counts: map<string, nat>)
    returns (entries: seq<(string, nat)>)
    requires forall i :: 0 <= i < |sorted| ==> sorted[i] in counts && counts[sorted[i]] == Occurrences(ok, sorted[i])
    ensures entries == Entries(ok, sorted)
  {
    hide Occurrences;
    entries := [];
    for i := 0 to |sorted|
      invariant entries == Entries(ok, sorted[..i])
    {
      entries := entries + [(sorted[i], counts[sorted[i]])];
    }
    assert sorted[..|sorted|] == sorted;
  }

  /** The counts of the categories, as a map. */
  method CountKeys(d: Decoders, ok: seq<Observation>) returns (counts: Option<map<string, nat>>)
    ensures counts.Some? <==> AllCategories(d, ok)
    ensures counts.Some? ==>
              && (forall key :: Occurrences(ok, key) == if key in counts.value then counts.value[key] else 0)
              && (forall key :: key in counts.value ==> counts.value[key] > 0)
  {
    var seen: map<string, nat> := map[];
    for i := 0 to |ok|
      invariant forall k :: 0 <= k < i ==> d.isCategory(ok[k].value)
      invariant forall key :: Occurrences(ok[..i], key) == if key in seen then seen[key] else 0
      invariant forall key :: key in seen ==> seen[key] > 0
    {
      assert ok[..i + 1][..i] == ok[..i];
      var key := ok[i].value;
      if !d.isCategory(key) { return None; }
      seen := seen[key := (if key in seen then seen[key] else 0) + 1];
    }
    assert ok[..|ok|] == ok;
    return Some(seen);
  }

  /** The keys of a map, in whatever order they come. */
  method ListKeys(all: set<string>) returns (keys: seq<string>)
    ensures NoDuplicates(keys) && forall key :: key in keys <==> key in all
  {
    keys := [];
    var rest := all;
    while rest != {}
      invariant NoDuplicates(keys) && rest <= all
      invariant forall key :: key in keys <==> key in all && key !in rest
      decreases |rest|
    {
      var key :| key in rest;
      keys := keys + [key];
      rest := rest - {key};
    }
  }

  lemma {:induction false} SortedKeys(ok: seq<Observation>, keys: seq<string>, counts: map<string, nat>)
    requires NoDuplicates(keys) && forall key :: key in keys <==> key in counts
    requires forall key :: Occurrences(ok, key) == if key in counts then counts[key] else 0
    requires forall key :: key in counts ==> counts[key] > 0
    ensures Sorting.SortBy(keys, Lexicographic) == Sorting.SortBy(Keys(ok), Lexicographic)
    ensures forall key :: key in Sorting.SortBy(keys, Lexicographic) ==> key in counts
  {
    KeysAreValues(ok);
    SameElementsPermute(keys, Keys(ok));
    LexicographicOrders();
    Sorting.SortIgnoresOrder(keys, Keys(ok), Lexicographic);
    Sorting.SortPermutes(keys, Lexicographic);
    forall key | key in Sorting.SortBy(keys, Lexicographic) ensures key in counts {
      assert key in multiset(keys);
      assert key in keys;
    }
  }

  // ---------- independence of the order ----------

  lemma {:induction false} StatusPermuted(a: seq<Observation>, b: seq<Observation>, status: string)
    requires multiset(a) == multiset(b)
    ensures multiset(WithStatus(a, status)) == multiset(WithStatus(b, status))
    ensures |WithStatus(a, status)| == |WithStatus(b, status)|
  {
    forall o ensures multiset(WithStatus(a, status))[o] == multiset(WithStatus(b, status))[o] {
      StatusMultiplicity(a, status, o);
      StatusMultiplicity(b, status, o);
    }
    assert multiset(WithStatus(a, status)) == multiset(WithStatus(b, status));
    assert |WithStatus(a, status)| == |multiset(WithStatus(a, status))|;
  }

  lemma {:induction false} StatusMultiplicity(a: seq<Observation>, status: string, o: Observation)
    ensures multiset(WithStatus(a, status))[o] == if o.status == status then multiset(a)[o] else 0
  {
    if |a| > 0 {
      var n := |a| - 1;
      StatusMultiplicity(a[..n], status, o);
      assert a == a[..n] + [a[n]];
    }
  }

  lemma {:induction false} SameMembers<T>(a: seq<T>, b: seq<T>)
    requires multiset(a) == multiset(b)
    ensures |a| == |b| && forall x :: x in a <==> x in b
  {
    assert |a| == |multiset(a)| == |b|;
    forall x ensures x in a <==> x in b { assert x in a <==> x in multiset(a); assert x in b <==> x in multiset(b); }
  }

  /** The latest fetch is one of the fetches, and none is later. */
  lemma {:induction false} LatestIsGreatest(ok: seq<Observation>)
    ensures LatestOf(ok).Some? ==> exists o :: o in ok && o.fetchedAt == LatestOf(ok)
    ensures forall o :: o in ok && o.fetchedAt.Some? ==> LatestOf(ok).Some? && o.fetchedAt.value <= LatestOf(ok).value
  {
    if |ok| > 0 {
      var n := |ok| - 1;
      LatestIsGreatest(ok[..n]);
      assert ok == ok[..n] + [ok[n]];
    }
  }

  lemma {:induction false} LatestPermuted(a: seq<Observation>, b: seq<Observation>)
    requires multiset(a) == multiset(b)
    ensures LatestOf(a) == LatestOf(b)
  {
    SameMembers(a, b);
    LatestIsGreatest(a);
    LatestIsGreatest(b);
  }

  lemma {:induction false} SharedIgnoresFirst(a: seq<Observation>, b: seq<Observation>)
    requires |a| > 0 && |b| > 0 && forall o :: o in a <==> o in b
    ensures AllUnits(a, a[0].unit) <==> AllUnits(b, b[0].unit)
    ensures AllUnits(a, a[0].unit) ==> a[0].unit == b[0].unit
    ensures AllSources(a, a[0]) <==> AllSources(b, b[0])
    ensures AllSources(a, a[0]) ==> SameSource(a[0], b[0])
  {
    assert a[0] in b && b[0] in a;
    forall i | 0 <= i < |a| ensures a[i] in b {}
    forall i | 0 <= i < |b| ensures b[i] in a {}
  }

  lemma {:induction false} ProvenancePermuted(a: seq<Observation>, b: seq<Observation>)
    requires |a| > 0 && multiset(a) == multiset(b)
    ensures |b| > 0 && SharedProvenance(a) == SharedProvenance(b)
  {
    SameMembers(a, b);
    LatestPermuted(a, b);
    SharedIgnoresFirst(a, b);
    hide AllUnits, AllSources, LatestOf;
  }

  // ---------- values under permutation ----------

  lemma {:induction false} FlagsExactly(d: Decoders, ok: seq<Observation>)
    ensures Flags(d, ok).Some? <==> forall o :: o in ok ==> d.boolOf(o.value).Some?
    ensures Flags(d, ok).Some? ==> (Flags(d, ok).value <==> exists o :: o in ok && d.boolOf(o.value) == Some(true))
  {
    if |ok| > 0 {
      var n := |ok| - 1;
      FlagsExactly(d, ok[..n]);
      assert ok == ok[..n] + [ok[n]];
    }
  }

  /** How often a number was read. */
  function Reads(d: Decoders, ok: seq<Observation>, x: real): nat {
    if |ok| == 0 then 0 else Reads(d, ok[..|ok| - 1], x) + (if d.numberOf(ok[|ok| - 1].value) == Some(x) then 1 else 0)
  }

  lemma {:induction false} NumbersExactly(d: Decoders, ok: seq<Observation>, x: real)
    ensures Numbers(d, ok).Some? <==> forall o :: o in ok ==> d.numberOf(o.value).Some?
    ensures Numbers(d, ok).Some? ==> multiset(Numbers(d, ok).value)[x] == Reads(d, ok, x)
  {
    if |ok| > 0 {
      var n := |ok| - 1;
      NumbersExactly(d, ok[..n], x);
      assert ok == ok[..n] + [ok[n]];
    }
  }

  lemma {:induction false} ReadsSplit(d: Decoders, a: seq<Observation>, b: seq<Observation>, x: real)
    ensures Reads(d, a + b, x) == Reads(d, a, x) + Reads(d, b, x)
  {
    if |b| == 0 {
      assert a + b == a;
    } else {
      ReadsSplit(d, a, b[..|b| - 1], x);
      assert (a + b)[..|a + b| - 1] == a + b[..|b| - 1];
    }
  }

  lemma {:induction false} OccurrencesSplit(a: seq<Observation>, b: seq<Observation>, key: string)
    ensures Occurrences(a + b, key) == Occurrences(a, key) + Occurrences(b, key)
  {
    if |b| == 0 {
      assert a + b == a;
    } else {
      OccurrencesSplit(a, b[..|b| - 1], key);
      assert (a + b)[..|a + b| - 1] == a + b[..|b| - 1];
    }
  }

  /** Taking one element out of a sequence, wherever it stands. */
  lemma {:induction false} TakeOut(b: seq<Observation>, o: Observation)
    returns (front: seq<Observation>, back: seq<Observation>)
    requires o in b
    ensures b == front + [o] + back && multiset(front + back) == multiset(b) - multiset{o}
  {
    var k :| 0 <= k < |b| && b[k] == o;
    front, back := b[..k], b[k + 1..];
    assert b == front + [o] + back;
  }

  lemma {:induction false} CountsPermuted(d: Decoders, a: seq<Observation>, b: seq<Observation>, x: real, key: string)
    requires multiset(a) == multiset(b)
    ensures Reads(d, a, x) == Reads(d, b, x) && Occurrences(a, key) == Occurrences(b, key)
  {
    SameMembers(a, b);
    if |a| > 0 {
      var n := |a| - 1;
      var last := [a[n]];
      assert a == a[..n] + last;
      assert a[n] in b;
      var front, back := TakeOut(b, a[n]);
      CountsPermuted(d, a[..n], front + back, x, key);
      ReadsSplit(d, a[..n], last, x);
      ReadsSplit(d, front + last, back, x);
      ReadsSplit(d, front, last, x);
      ReadsSplit(d, front, back, x);
      OccurrencesSplit(a[..n], last, key);
      OccurrencesSplit(front + last, back, key);
      OccurrencesSplit(front, last, key);
      OccurrencesSplit(front, back, key);
    }
  }

  lemma {:induction false} RealsAscend()
    ensures Sorting.TotalOrder(Ascending)
  {}

  lemma {:induction false} NumbersPermuted(d: Decoders, a: seq<Observation>, b: seq<Observation>)
    requires multiset(a) == multiset(b)
    ensures Numbers(d, a).Some? <==> Numbers(d, b).Some?
    ensures Numbers(d, a).Some? ==>
              |Numbers(d, a).value| == |Numbers(d, b).value|
                && Sorted(Numbers(d, a).value) == Sorted(Numbers(d, b).value)
  {
    SameMembers(a, b);
    NumbersExactly(d, a, 0.0);
    NumbersExactly(d, b, 0.0);
    NumbersLength(d, a);
    NumbersLength(d, b);
    if Numbers(d, a).Some? {
      var xs, ys := Numbers(d, a).value, Numbers(d, b).value;
      forall x: real ensures multiset(xs)[x] == multiset(ys)[x] {
        NumbersExactly(d, a, x);
        NumbersExactly(d, b, x);
        CountsPermuted(d, a, b, x, "");
      }
      RealsAscend();
      Sorting.SortIgnoresOrder(xs, ys, Ascending);
    }
  }

  lemma {:induction false} DistributionPermuted(d: Decoders, a: seq<Observation>, b: seq<Observation>)
    requires multiset(a) == multiset(b)
    ensures Sorting.SortBy(Keys(a), Lexicographic) == Sorting.SortBy(Keys(b), Lexicographic)
    ensures forall keys :: Entries(a, keys) == Entries(b, keys)
    ensures AllCategories(d, a) <==> AllCategories(d, b)
  {
    SameMembers(a, b);
    KeysAreValues(a);
    KeysAreValues(b);
    forall key ensures Occurrences(a, key) == Occurrences(b, key) { CountsPermuted(d, a, b, 0.0, key); }
    hide Occurrences, Keys, Lexicographic;
    SameElementsPermute(Keys(a), Keys(b));
    LexicographicOrders();
    Sorting.SortIgnoresOrder(Keys(a), Keys(b), Lexicographic);
    CategoriesByMember(d, a);
    CategoriesByMember(d, b);
  }

  lemma {:induction false} CategoriesByMember(d: Decoders, ok: seq<Observation>)
    ensures AllCategories(d, ok) <==> forall o :: o in ok ==> d.isCategory(o.value)
  {}

  lemma {:induction false} CombinedPermuted(d: Decoders, rule: Rule, a: seq<Observation>, b: seq<Observation>)
    requires |a| > 0 && multiset(a) == multiset(b)
    ensures |b| > 0 && Combined(d, rule, a) == Combined(d, rule, b)
  {
    SameMembers(a, b);
    FlagsExactly(d, a);
    FlagsExactly(d, b);
    assert Flags(d, a) == Flags(d, b);
    NumbersPermuted(d, a, b);
    DistributionPermuted(d, a, b);
    hide Flags, Numbers, Sorted, Keys, Entries, AllCategories, Lexicographic, Occurrences, Sorting.SortBy;
  }

  /**
    Permuting the observations changes neither whether a field can be aggregated nor its value,
    unit, source, latest fetch, counts and state; only the list of sample indices follows the order.
  */
  lemma {:induction false} AggregateIgnoresOrder(d: Decoders, rule: Rule, a: seq<Observation>, b: seq<Observation>,
                                                 sampleCount: int)
    requires multiset(a) == multiset(b)
    ensures Aggregable(d, rule, a) <==> Aggregable(d, rule, b)
    ensures Aggregated(d, rule, a, sampleCount).(sampleIndices := []) ==
              Aggregated(d, rule, b, sampleCount).(sampleIndices := [])
  {
    hide Combined, SharedProvenance, WithStatus, Known, Indices;
    SameMembers(a, b);
    StatusPermuted(a, b, "ok");
    StatusPermuted(a, b, "absent");
    StatusPermuted(a, b, "failed");
    KnownByMember(a);
    KnownByMember(b);
    if |Ok(a)| > 0 {
      CombinedPermuted(d, rule, Ok(a), Ok(b));
      ProvenancePermuted(Ok(a), Ok(b));
    }
  }

  lemma {:induction false} KnownByMember(a: seq<Observation>)
    ensures (forall i :: 0 <= i < |a| ==> Known(a[i])) <==> forall o :: o in a ==> Known(o)
  {}

  // ---------- what the values mean ----------

  lemma {:induction false} MedianSplits(s: seq<real>)
    requires |s| > 0 && forall i, j :: 0 <= i < j < |s| ==> s[i] <= s[j]
    ensures s[0] <= MedianOf(s) <= s[|s| - 1]
    ensures forall i :: 0 <= i <= (|s| - 1) / 2 ==> s[i] <= MedianOf(s)
    ensures forall i :: |s| / 2 <= i < |s| ==> MedianOf(s) <= s[i]
  {
    var middle := |s| / 2;
    if |s| % 2 == 0 { assert s[middle - 1] <= MedianOf(s) <= s[middle]; }
  }

  lemma {:induction false} SortedReals(xs: seq<real>)
    ensures var s := Sorted(xs);
            && |s| == |xs| && multiset(s) == multiset(xs)
            && forall i, j :: 0 <= i < j < |s| ==> s[i] <= s[j]
  {
    RealsAscend();
    Sorting.SortSorts(xs, Ascending);
    Sorting.SortPermutes(xs, Ascending);
    hide Sorting.SortBy;
    var s := Sorted(xs);
    forall i, j | 0 <= i < j < |s| ensures s[i] <= s[j] { assert Ascending(s[i], s[j]); }
  }

  lemma {:induction false} SortedEnds(xs: seq<real>, s: seq<real>)
    requires |s| == |xs| > 0 && multiset(s) == multiset(xs) && forall i, j :: 0 <= i < j < |s| ==> s[i] <= s[j]
    ensures s[0] in xs && s[|s| - 1] in xs && forall x :: x in xs ==> s[0] <= x <= s[|s| - 1]
  {
    SameMembers(s, xs);
    assert s[0] in s && s[|s| - 1] in s;
    forall x | x in xs ensures s[0] <= x <= s[|s| - 1] {
      var i :| 0 <= i < |s| && s[i] == x;
    }
  }

  /**
    The range: its ends are read values that bound all others, and at least half of the values
    lie on either side of the median, which is between the ends.
  */
  lemma {:induction false} RangeBounds(d: Decoders, ok: seq<Observation>)
    requires |ok| > 0 && Combined(d, NumericRange, ok).Some?
    ensures var r := Combined(d, NumericRange, ok).value;
            var xs := Numbers(d, ok).value;
            var s := Sorted(xs);
            && Numbers(d, ok).Some? && r.Range? && |s| == |xs| == |ok|
            && r.min <= r.median <= r.max
            && r.min in xs && r.max in xs && (forall x :: x in xs ==> r.min <= x <= r.max)
            && multiset(s) == multiset(xs)
            && (forall i :: 0 <= i <= (|s| - 1) / 2 ==> s[i] <= r.median)
            && (forall i :: |s| / 2 <= i < |s| ==> r.median <= s[i])
  {
    hide Numbers, Sorted, MedianOf;
    NumbersLength(d, ok);
    var xs := Numbers(d, ok).value;
    SortedReals(xs);
    SortedEnds(xs, Sorted(xs));
    MedianSplits(Sorted(xs));
  }

  function Total(entries: seq<(string, nat)>): nat {
    if |entries| == 0 then 0 else Total(entries[..|entries| - 1]) + entries[|entries| - 1].1
  }

  /** Adding one occurrence of a listed key adds one to the total. */
  lemma {:induction false} TotalOfKeys(ok: seq<Observation>, keys: seq<string>)
    requires NoDuplicates(keys) && forall o :: o in ok ==> o.value in keys
    ensures Total(Entries(ok, keys)) == |ok|
  {
    if |ok| == 0 {
      NothingCounted(ok, keys);
    } else {
      var n := |ok| - 1;
      assert ok == ok[..n] + [ok[n]];
      TotalOfKeys(ok[..n], keys);
      assert ok[n].value in keys;
      OneMore(ok, keys);
    }
  }

  lemma {:induction false} NothingCounted(ok: seq<Observation>, keys: seq<string>)
    requires |ok| == 0
    ensures Total(Entries(ok, keys)) == 0
  {
    if |keys| > 0 {
      NothingCounted(ok, keys[..|keys| - 1]);
      assert Entries(ok, keys)[..|keys| - 1] == Entries(ok, keys[..|keys| - 1]);
    }
  }

  lemma {:induction false} OneMore(ok: seq<Observation>, keys: seq<string>)
    requires |ok| > 0 && NoDuplicates(keys)
    ensures Total(Entries(ok, keys)) == Total(Entries(ok[..|ok| - 1], keys))
            + (if ok[|ok| - 1].value in keys then 1 else 0)
  {
    if |keys| > 0 {
      var m := |keys| - 1;
      OneMore(ok, keys[..m]);
      assert Entries(ok, keys)[..m] == Entries(ok, keys[..m]);
      assert Entries(ok[..|ok| - 1], keys)[..m] == Entries(ok[..|ok| - 1], keys[..m]);
      assert keys == keys[..m] + [keys[m]];
    }
  }

  lemma {:induction false} SortedKeysFacts(ok: seq<Observation>)
    ensures var keys := Sorting.SortBy(Keys(ok), Lexicographic);
            && NoDuplicates(keys) && Sorting.SortedBy(keys, Lexicographic)
            && (forall key :: key in keys <==> Occurrences(ok, key) > 0)
            && (forall o :: o in ok ==> o.value in keys)
  {
    KeysAreValues(ok);
    LexicographicOrders();
    hide Keys, Lexicographic, NoDuplicates, Occurrences;
    Sorting.SortSorts(Keys(ok), Lexicographic);
    Sorting.SortPermutes(Keys(ok), Lexicographic);
    var keys := Sorting.SortBy(Keys(ok), Lexicographic);
    hide Sorting.SortBy, Sorting.SortedBy;
    SameMembers(keys, Keys(ok));
    PermutedStaysDistinct(Keys(ok), keys);
    forall o | o in ok ensures o.value in keys { ValueOccurs(ok, o); }
  }

  /**
    A distribution lists distinct categories in order, each with a positive count, and counts every
    observation once.
  */
  lemma {:induction false} DistributionCounts(d: Decoders, ok: seq<Observation>)
    requires |ok| > 0 && Combined(d, Distribution, ok).Some?
    ensures var v := Combined(d, Distribution, ok).value;
            && v.Counts?
            && Total(v.entries) == |ok|
            && (forall i :: 0 <= i < |v.entries| ==> v.entries[i].1 == Occurrences(ok, v.entries[i].0) > 0)
            && (forall i, j :: 0 <= i < j < |v.entries| ==>
                v.entries[i].0 != v.entries[j].0 && Lexicographic(v.entries[i].0, v.entries[j].0))
  {
    SortedKeysFacts(ok);
    hide Sorting.SortBy, Keys, Lexicographic, Occurrences, Total;
    var keys := Sorting.SortBy(Keys(ok), Lexicographic);
    TotalOfKeys(ok, keys);
    assert forall i :: 0 <= i < |keys| ==> keys[i] in keys;
  }

  lemma {:induction false} ValueOccurs(ok: seq<Observation>, o: Observation)
    requires o in ok
    ensures Occurrences(ok, o.value) > 0
  {
    var n := |ok| - 1;
    assert ok == ok[..n] + [ok[n]];
    if o != ok[n] { ValueOccurs(ok[..n], o); }
  }

  lemma {:induction false} PermutedStaysDistinct(a: seq<string>, b: seq<string>)
    requires NoDuplicates(a) && multiset(a) == multiset(b)
    ensures NoDuplicates(b)
  {
    forall i, j | 0 <= i < j < |b| ensures b[i] != b[j] {
      OnceOrNever(a, b[i]);
      if b[i] == b[j] { TwiceListed(b, i, j); }
    }
  }

  lemma {:induction false} TwiceListed(b: seq<string>, i: nat, j: nat)
    requires i < j < |b| && b[i] == b[j]
    ensures multiset(b)[b[i]] >= 2
  {
    assert b == b[..j] + [b[j]] + b[j + 1..];
    assert b[..j][i] == b[i];
    assert multiset(b[..j])[b[i]] >= 1;
  }

  /** With no surplus observations every expected sample is accounted for exactly once. */
  lemma {:induction false} SamplesAccountedFor(d: Decoders, rule: Rule, observations: seq<Observation>,
                                               sampleCount: int)
    requires forall i :: 0 <= i < |observations| ==> Known(observations[i])
    requires |observations| <= sampleCount
    ensures var r := Aggregated(d, rule, observations, sampleCount);
            r.okCount + r.absentCount + r.failedCount == sampleCount
  {
    StatusesCover(observations);
    hide Combined, SharedProvenance, WithStatus;
  }

  /** Complete means exactly that all expected samples, and no others, are present and ok. */
  lemma {:induction false} CompleteExactly(d: Decoders, rule: Rule, observations: seq<Observation>, sampleCount: int)
    requires forall i :: 0 <= i < |observations| ==> Known(observations[i])
    ensures Aggregated(d, rule, observations, sampleCount).state == Complete <==>
              && |observations| == sampleCount > 0
              && forall i :: 0 <= i < |observations| ==> observations[i].status == "ok"
  {
    StatusesCover(observations);
    AllOkExactly(observations);
    hide Combined, SharedProvenance, WithStatus;
  }

  lemma {:induction false} AllOkExactly(observations: seq<Observation>)
    ensures |WithStatus(observations, "ok")| <= |observations|
    ensures |WithStatus(observations, "ok")| == |observations| <==>
              forall i :: 0 <= i < |observations| ==> observations[i].status == "ok"
  {
    if |observations| > 0 { AllOkExactly(observations[..|observations| - 1]); }
  }
}
