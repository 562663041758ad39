/** `flattenHash`: collapses a dictionary so that each distinct value is kept
    under only the first key, in iteration order, that maps to it. The
    dictionary is given as its items in iteration order. */
module Flatten {

  /** The items of a dictionary: no key occurs twice. */
  ghost predicate DistinctKeys<K, V>(items: seq<(K, V)>)
  {
    forall i, j :: 0 <= i < j < |items| ==> items[i].0 != items[j].0
  }

  /** No two items carry equal values. */
  ghost predicate DistinctValues<K, V>(items: seq<(K, V)>)
  {
    forall i, j :: 0 <= i < j < |items| ==> items[i].1 != items[j].1
  }

  /** No two keys of the map carry equal values. */
  ghost predicate Injective<K, V>(m: map<K, V>)
  {
    forall k1, k2 :: k1 in m && k2 in m && k1 != k2 ==> m[k1] != m[k2]
  }

  /** Item `i` is the first in iteration order to carry its value. */
  ghost predicate FirstWithValue<K, V>(items: seq<(K, V)>, i: int)
    requires 0 <= i < |items|
  {
    forall j :: 0 <= j < i ==> items[j].1 != items[i].1
  }

  /** `items` lists the entries of `m`, each key once. */
  ghost predicate Enumerates<K, V>(items: seq<(K, V)>, m: map<K, V>)
  {
    && DistinctKeys(items)
    && (forall i :: 0 <= i < |items| ==> items[i].0 in m && m[items[i].0] == items[i].1)
    && (forall k :: k in m ==> exists i :: 0 <= i < |items| && items[i].0 == k)
  }

  /** The result of `flattenHash` on a dictionary whose items are `items`. */
  function Flattened<K, V(==)>(items: seq<(K, V)>): map<K, V>
  {
    if items == [] then map[]
    else
      var result := Flattened(items[..|items| - 1]);
      var (key, value) := items[|items| - 1];
      if value in result.Values then result else result[key := value]
  }

  /** Every kept key comes with the value it had in the input. */
  lemma {:induction false} FlattenedFromInput<K, V>(items: seq<(K, V)>)
    ensures forall k :: k in Flattened(items) ==>
      exists i :: 0 <= i < |items| && items[i] == (k, Flattened(items)[k])
    decreases |items|
  {
    if items != [] {
      var init := items[..|items| - 1];
      FlattenedFromInput(init);
      forall k | k in Flattened(items)
        ensures exists i :: 0 <= i < |items| && items[i] == (k, Flattened(items)[k])
      {
        if items[|items| - 1] != (k, Flattened(items)[k]) {
          var i :| 0 <= i < |init| && init[i] == (k, Flattened(init)[k]);
          assert items[i] == init[i];
        }
      }
    }
  }

  /** No two kept keys have equal values. */
  lemma {:induction false} FlattenedInjective<K, V>(items: seq<(K, V)>)
    ensures Injective(Flattened(items))
    decreases |items|
  {
    if items != [] {
      FlattenedInjective(items[..|items| - 1]);
    }
  }

  /** The last item's key is not among the keys kept from the items before it. */
  lemma LastKeyNew<K, V>(items: seq<(K, V)>)
    requires DistinctKeys(items) && items != []
    ensures items[|items| - 1].0 !in Flattened(items[..|items| - 1])
  {
    var init := items[..|items| - 1];
    FlattenedFromInput(init);
  }

  /** For a dictionary's items, every input value is the value of some kept key. */
  lemma {:induction false} FlattenedCoversValues<K, V>(items: seq<(K, V)>)
    requires DistinctKeys(items)
    ensures forall i :: 0 <= i < |items| ==> items[i].1 in Flattened(items).Values
    decreases |items|
  {
    if items != [] {
      var init := items[..|items| - 1];
      FlattenedCoversValues(init);
      FlattenedFromInput(init);
      var result := Flattened(init);
      var (key, value) := items[|items| - 1];
      LastKeyNew(items);
      forall i | 0 <= i < |items|
        ensures items[i].1 in Flattened(items).Values
      {
        if i < |init| {
          assert items[i] == init[i];
          var k :| k in result && result[k] == init[i].1;
          assert Flattened(items)[k] == result[k];
        } else {
          if value !in result.Values {
            assert Flattened(items)[key] == value;
          }
        }
      }
    }
  }

  /** For a dictionary's items, a key is kept exactly when its item is the
      first in iteration order to carry its value. */
  lemma {:induction false} FlattenedKeepsFirst<K, V>(items: seq<(K, V)>)
    requires DistinctKeys(items)
    ensures forall i :: 0 <= i < |items| ==>
      (items[i].0 in Flattened(items) <==> FirstWithValue(items, i))
    decreases |items|
  {
    if items != [] {
      var n := |items| - 1;
      var init := items[..n];
      var result := Flattened(init);
      var (key, value) := items[n];
      FlattenedKeepsFirst(init);
      FlattenedFromInput(init);
      FlattenedCoversValues(init);
      LastKeyNew(items);
      forall i | 0 <= i < |items|
        ensures items[i].0 in Flattened(items) <==> FirstWithValue(items, i)
      {
        if i < n {
          assert items[i] == init[i];
          assert items[i].0 != key;
          assert FirstWithValue(items, i) <==> FirstWithValue(init, i) by {
            forall j | 0 <= j < i ensures items[j] == init[j] { }
          }
        } else {
          assert key !in result;
          if value in result.Values {
            var k :| k in result && result[k] == value;
            var j :| 0 <= j < |init| && init[j] == (k, result[k]);
            assert items[j].1 == items[n].1;
          } else {
            forall j | 0 <= j < n ensures items[j].1 != items[n].1 {
              assert items[j] == init[j];
            }
          }
        }
      }
    }
  }

  /** The result has no more entries than the input has items. */
  lemma {:induction false} FlattenedSize<K, V>(items: seq<(K, V)>)
    ensures |Flattened(items)| <= |items|
    decreases |items|
  {
    if items != [] {
      var init := items[..|items| - 1];
      FlattenedSize(init);
      var result := Flattened(init);
      var (key, value) := items[|items| - 1];
      if value !in result.Values {
        assert result[key := value].Keys == result.Keys + {key};
      }
    }
  }

  /** Items whose values are pairwise distinct are all kept, unchanged. */
  lemma {:induction false} FlattenedKeepsDistinct<K, V>(items: seq<(K, V)>)
    requires DistinctKeys(items) && DistinctValues(items)
    ensures Enumerates(items, Flattened(items))
    decreases |items|
  {
    if items != [] {
      var n := |items| - 1;
      var init := items[..n];
      var result := Flattened(init);
      var (key, value) := items[n];
      FlattenedKeepsDistinct(init);
      assert value !in result.Values;
      forall i | 0 <= i < |items|
        ensures items[i].0 in Flattened(items) && Flattened(items)[items[i].0] == items[i].1
      {
        if i < n {
          assert items[i] == init[i];
        }
      }
      forall k | k in Flattened(items)
        ensures exists i :: 0 <= i < |items| && items[i].0 == k
      {
        if k != key {
          var i :| 0 <= i < |init| && init[i].0 == k;
          assert items[i] == init[i];
        } else {
          assert items[n].0 == k;
        }
      }
    }
  }

  /** Two enumerations of one map agree as maps. */
  lemma MapOfEnumeration<K, V>(items: seq<(K, V)>, m: map<K, V>, m': map<K, V>)
    requires Enumerates(items, m) && Enumerates(items, m')
    ensures m == m'
  {
  }

  /** Flattening is idempotent: flattening the result again, in any iteration
      order of its entries, gives the result back. */
  lemma FlattenedIdempotent<K, V>(items: seq<(K, V)>, again: seq<(K, V)>)
    requires Enumerates(again, Flattened(items))
    ensures Flattened(again) == Flattened(items)
  {
    var result := Flattened(items);
    FlattenedInjective(items);
    assert DistinctValues(again) by {
      forall i, j | 0 <= i < j < |again| ensures again[i].1 != again[j].1 {
        assert result[again[i].0] != result[again[j].0];
      }
    }
    FlattenedKeepsDistinct(again);
    MapOfEnumeration(again, Flattened(again), result);
  }

  /** Three keys, the first two with equal lists: the second is dropped. */
  lemma FlattenedDropsLaterDuplicate<V>(v1: V, v2: V)
    requires v1 != v2
    ensures Flattened([("a", v1), ("b", v1), ("c", v2)]) == map["a" := v1, "c" := v2]
  {
    var items := [("a", v1), ("b", v1), ("c", v2)];
    var one := map["a" := v1];
    assert [("a", v1)][..0] == [];
    assert Flattened([("a", v1)]) == one;
    assert items[..2][..1] == [("a", v1)];
    assert v1 in one.Values by { assert one["a"] == v1; }
    assert Flattened(items[..2]) == one;
    assert v2 !in one.Values;
  }

  /** `flattenHash` as the code runs it: a loop over the items that keeps a
      key when its value is not yet among the kept values. */
  method FlattenHash<K, V(==)>(items: seq<(K, V)>) returns (result: map<K, V>)
    ensures result == Flattened(items)
  {
    result := map[];
    for i := 0 to |items|
      invariant result == Flattened(items[..i])
    {
      var (key, value) := items[i];
      assert items[..i + 1][..i] == items[..i];
      if value !in result.Values {
        result := result[key := value];
      }
    }
    assert items[..|items|] == items;
  }
}
