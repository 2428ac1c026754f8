/** Sums of the values of a dictionary from ids to numbers, and when one such sum dominates another. */
module KeyedSums {
  import opened Sums
  import opened Tables

  type Numbers = seq<Entry<nat, real>>

  /** `sum(d.values())`. */
  function SumValues(d: Numbers): real {
    Sum(Values(d))
  }

  lemma {:induction false} SumAfterPut(d: Numbers, key: nat, value: real)
    requires DistinctKeys(d)
    ensures SumValues(Put(d, key, value)) == SumValues(d) - Get(d, key, 0.0) + value
  {
    var more := Put(d, key, value);
    assert Values(more)[1..] == Values(more[1..]);
    if d != [] {
      assert Values(d)[1..] == Values(d[1..]);
      if d[0].key == key {
        assert more[1..] == d[1..];
      } else {
        assert more[1..] == Put(d[1..], key, value);
        SumAfterPut(d[1..], key, value);
      }
    }
  }

  lemma SumValuesNonNegative(d: Numbers)
    requires DistinctKeys(d) && forall k :: Get(d, k, 0.0) >= 0.0
    ensures SumValues(d) >= 0.0
  {
    forall i | 0 <= i < |d| ensures Values(d)[i] >= 0.0 {
      GetAt(d, i, 0.0);
    }
    SumNonNegative(Values(d));
  }

  /** Nonnegative numbers that are keywise at least the items, whose keys are distinct, sum to at least the items. */
  lemma {:induction false} KeyedSumCovers(d: Numbers, items: Numbers)
    requires DistinctKeys(d) && DistinctKeys(items)
    requires forall k :: Get(d, k, 0.0) >= 0.0
    requires forall o :: 0 <= o < |items| ==> Get(d, items[o].key, 0.0) >= items[o].value
    ensures SumValues(items) <= SumValues(d)
    decreases |items|
  {
    if items == [] {
      SumValuesNonNegative(d);
    } else {
      var key := items[0].key;
      var rest := Put(d, key, 0.0);
      PutKeys(d, key, 0.0);
      forall k ensures Get(rest, k, 0.0) == if k == key then 0.0 else Get(d, k, 0.0) {
        GetAfterPut(d, key, 0.0, k, 0.0);
      }
      KeyedSumCovers(rest, items[1..]);
      SumAfterPut(d, key, 0.0);
      assert Values(items)[1..] == Values(items[1..]);
    }
  }
}
