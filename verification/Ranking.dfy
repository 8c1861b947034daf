/** Laws of the six-key ranking: a stable, sorted rearrangement with the eligible fields in front. */
module Ranking {
  import opened Wrappers
  import opened Placement

  lemma {:induction false} StableSortLength(fields: seq<PlacementField>)
    ensures |StableSort(fields)| == |fields|
  {
    if |fields| > 0 {
      StableSortLength(fields[..|fields| - 1]);
      InsertPermutes(StableSort(fields[..|fields| - 1]), fields[|fields| - 1]);
    }
  }

  lemma {:induction false} InsertPermutes(sorted: seq<PlacementField>, x: PlacementField)
    ensures |InsertField(sorted, x)| == |sorted| + 1
    ensures multiset(InsertField(sorted, x)) == multiset(sorted) + multiset{x}
  {
    hide RanksBefore;
    if |sorted| > 0 {
      InsertPermutes(sorted[..|sorted| - 1], x);
      assert sorted == sorted[..|sorted| - 1] + [sorted[|sorted| - 1]];
    }
  }

  /** Ranking loses and invents nothing. */
  lemma {:induction false} SortPermutes(fields: seq<PlacementField>)
    ensures multiset(StableSort(fields)) == multiset(fields)
  {
    hide InsertField;
    if |fields| > 0 {
      var front := fields[..|fields| - 1];
      SortPermutes(front);
      InsertPermutes(StableSort(front), fields[|fields| - 1]);
      assert fields == front + [fields[|fields| - 1]];
    }
  }

  /** "Does not rank after" is transitive, so neighbours in order are enough. */
  lemma {:induction false} NotAfterTransitive(a: Key, b: Key, c: Key)
    requires !KeyLess(b, a) && !KeyLess(c, b)
    ensures !KeyLess(c, a)
  {}

  ghost predicate InOrder(fields: seq<PlacementField>) {
    forall i, j :: 0 <= i < j < |fields| ==> !RanksBefore(fields[j], fields[i])
  }

  lemma {:induction false} InsertKeepsOrder(sorted: seq<PlacementField>, x: PlacementField)
    requires InOrder(sorted)
    ensures InOrder(InsertField(sorted, x))
  {
    hide KeyLess, KeyOf;
    if |sorted| > 0 {
      var n := |sorted| - 1;
      var last := sorted[n];
      if RanksBefore(x, last) {
        var front := sorted[..n];
        InsertKeepsOrder(front, x);
        var inner := InsertField(front, x);
        InsertPermutes(front, x);
        forall i | 0 <= i < |inner|
          ensures !RanksBefore(last, inner[i])
        {
          assert inner[i] in multiset(inner);
          if inner[i] == x {
            StrictIsAsymmetric(KeyOf(x), KeyOf(last));
          } else {
            assert inner[i] in multiset(front);
            assert inner[i] in front;
          }
        }
      } else {
        forall i | 0 <= i <= n
          ensures !RanksBefore(x, sorted[i])
        {
          if i < n { NotAfterTransitive(KeyOf(sorted[i]), KeyOf(last), KeyOf(x)); }
        }
      }
    }
  }

  lemma {:induction false} StrictIsAsymmetric(a: Key, b: Key)
    requires KeyLess(a, b)
    ensures !KeyLess(b, a)
  {}

  /** The ranking is sorted by all six keys. */
  lemma {:induction false} SortIsOrdered(fields: seq<PlacementField>)
    ensures InOrder(StableSort(fields))
  {
    if |fields| > 0 {
      SortIsOrdered(fields[..|fields| - 1]);
      InsertKeepsOrder(StableSort(fields[..|fields| - 1]), fields[|fields| - 1]);
    }
  }

  /** The fields with one particular key, in order. */
  function WithKey(fields: seq<PlacementField>, key: Key): seq<PlacementField> {
    if |fields| == 0 then []
    else
      WithKey(fields[..|fields| - 1], key)
      + (if KeyOf(fields[|fields| - 1]) == key then [fields[|fields| - 1]] else [])
  }

  lemma {:induction false} InsertIsStable(sorted: seq<PlacementField>, x: PlacementField, key: Key)
    ensures WithKey(InsertField(sorted, x), key) ==
            WithKey(sorted, key) + (if KeyOf(x) == key then [x] else [])
  {
    hide KeyOf, KeyLess;
    var r := InsertField(sorted, x);
    if |sorted| > 0 && RanksBefore(x, sorted[|sorted| - 1]) {
      var n := |sorted| - 1;
      InsertIsStable(sorted[..n], x, key);
      assert r[..|r| - 1] == InsertField(sorted[..n], x);
      KeyIrreflexive(KeyOf(x));
    } else {
      assert r[..|r| - 1] == sorted;
    }
  }

  lemma {:induction false} KeyIrreflexive(a: Key)
    ensures !KeyLess(a, a)
  {}

  /** Stability: fields that tie on every key keep their input order. */
  lemma {:induction false} SortIsStable(fields: seq<PlacementField>, key: Key)
    ensures WithKey(StableSort(fields), key) == WithKey(fields, key)
  {
    hide KeyOf;
    if |fields| > 0 {
      SortIsStable(fields[..|fields| - 1], key);
      InsertIsStable(StableSort(fields[..|fields| - 1]), fields[|fields| - 1], key);
    }
  }

  ghost predicate DistinctIds(fields: seq<PlacementField>) {
    forall i, j :: 0 <= i < j < |fields| ==> fields[i].id != fields[j].id
  }

  lemma {:induction false} InsertKeepsIds(sorted: seq<PlacementField>, x: PlacementField)
    requires DistinctIds(sorted) && forall i :: 0 <= i < |sorted| ==> sorted[i].id != x.id
    ensures DistinctIds(InsertField(sorted, x))
  {
    hide RanksBefore;
    if |sorted| > 0 && RanksBefore(x, sorted[|sorted| - 1]) {
      var front := sorted[..|sorted| - 1];
      InsertKeepsIds(front, x);
      InsertPermutes(front, x);
      var inner := InsertField(front, x);
      forall i | 0 <= i < |inner| ensures inner[i].id != sorted[|sorted| - 1].id {
        assert inner[i] in multiset(inner);
        if inner[i] != x { assert inner[i] in multiset(front); assert inner[i] in front; }
      }
    }
  }

  lemma {:induction false} SortKeepsIds(fields: seq<PlacementField>)
    requires DistinctIds(fields)
    ensures DistinctIds(StableSort(fields))
  {
    if |fields| > 0 {
      var front, x := fields[..|fields| - 1], fields[|fields| - 1];
      SortKeepsIds(front);
      SortPermutes(front);
      var sorted := StableSort(front);
      forall i | 0 <= i < |sorted| ensures sorted[i].id != x.id {
        assert sorted[i] in multiset(sorted);
        assert sorted[i] in front;
      }
      InsertKeepsIds(sorted, x);
    }
  }

  /** Ranks are 1..n, and no eligible field stands behind one that is not eligible. */
  lemma {:induction false} EligibleFieldsLead(fields: seq<PlacementField>)
    ensures |Ranked(fields)| == |fields|
    ensures forall i :: 0 <= i < |fields| ==> Ranked(fields)[i].rank == Some(i + 1)
    ensures forall i, j :: 0 <= i < j < |fields| && Ranked(fields)[j].disposition == Eligible ==>
              Ranked(fields)[i].disposition == Eligible
  {
    StableSortLength(fields);
    SortIsOrdered(fields);
    var sorted := StableSort(fields);
    forall i, j | 0 <= i < j < |fields| && Ranked(fields)[j].disposition == Eligible
      ensures Ranked(fields)[i].disposition == Eligible
    {
      assert !RanksBefore(sorted[j], sorted[i]);
    }
  }
}
