/** GROUP BY over a sequence of rows: what the groups of some keys add up to. */
module Aggregation {
  /** The rows of one group, in order. */
  function Group<R(!new), K(==)>(rows: seq<R>, key: R -> K, k: K): (group: seq<R>)
    ensures forall row :: row in group <==> row in rows && key(row) == k
  {
    if rows == [] then []
    else
      var init, last := rows[..|rows| - 1], rows[|rows| - 1];
      assert rows == init + [last];
      if key(last) == k then Group(init, key, k) + [last] else Group(init, key, k)
  }

  ghost predicate Distinct<K>(keys: seq<K>) {
    forall i, j :: 0 <= i < j < |keys| ==> keys[i] != keys[j]
  }

  ghost function Elements<K>(keys: seq<K>): set<K> {
    set k | k in keys
  }

  function Sum(counts: seq<nat>): nat {
    if counts == [] then 0 else Sum(counts[..|counts| - 1]) + counts[|counts| - 1]
  }

  /** The sizes of the groups of `keys`. */
  ghost function Sizes<R(!new), K>(rows: seq<R>, key: R -> K, keys: seq<K>): seq<nat> {
    seq(|keys|, i requires 0 <= i < |keys| => |Group(rows, key, keys[i])|)
  }

  /** How many rows have their key in `wanted`. */
  ghost function CountIn<R(!new), K>(rows: seq<R>, key: R -> K, wanted: set<K>): nat {
    if rows == [] then 0
    else CountIn(rows[..|rows| - 1], key, wanted) + if key(rows[|rows| - 1]) in wanted then 1 else 0
  }

  lemma {:induction false} OneMoreKey<R(!new), K>(rows: seq<R>, key: R -> K, wanted: set<K>, k: K)
    requires k !in wanted
    ensures CountIn(rows, key, wanted + {k}) == CountIn(rows, key, wanted) + |Group(rows, key, k)|
  {
    if rows != [] {
      OneMoreKey(rows[..|rows| - 1], key, wanted, k);
    }
  }

  lemma {:induction false} NoKeys<R(!new), K>(rows: seq<R>, key: R -> K)
    ensures CountIn(rows, key, {}) == 0
  {
    if rows != [] {
      NoKeys(rows[..|rows| - 1], key);
    }
  }

  /** Groups of different keys do not overlap: their sizes add up to the rows that have one of the keys. */
  lemma {:induction false} SizesAddUp<R(!new), K>(rows: seq<R>, key: R -> K, keys: seq<K>)
    requires Distinct(keys)
    ensures Sum(Sizes(rows, key, keys)) == CountIn(rows, key, Elements(keys))
  {
    if keys == [] {
      assert Elements(keys) == {};
      NoKeys(rows, key);
    } else {
      var init, last := keys[..|keys| - 1], keys[|keys| - 1];
      SizesAddUp(rows, key, init);
      assert Sizes(rows, key, keys)[..|keys| - 1] == Sizes(rows, key, init);
      assert keys == init + [last] && last !in init;
      assert Elements(keys) == Elements(init) + {last};
      OneMoreKey(rows, key, Elements(init), last);
    }
  }

  /** Nothing is left out exactly when every row has one of the keys. */
  lemma {:induction false} CountsAllIff<R(!new), K>(rows: seq<R>, key: R -> K, wanted: set<K>)
    ensures CountIn(rows, key, wanted) <= |rows|
    ensures CountIn(rows, key, wanted) == |rows| <==> forall row :: row in rows ==> key(row) in wanted
  {
    if rows != [] {
      var init, last := rows[..|rows| - 1], rows[|rows| - 1];
      assert rows == init + [last];
      CountsAllIff(init, key, wanted);
    }
  }

  lemma {:induction false} SumAt(counts: seq<nat>, i: nat)
    requires i < |counts|
    ensures counts[i] <= Sum(counts)
  {
    if i < |counts| - 1 {
      SumAt(counts[..|counts| - 1], i);
    }
  }

  lemma DistinctSize<T>(values: seq<T>)
    requires Distinct(values)
    ensures |Elements(values)| == |values|
  {
    if values != [] {
      var init, last := values[..|values| - 1], values[|values| - 1];
      DistinctSize(init);
      assert values == init + [last] && last !in init;
      assert Elements(values) == Elements(init) + {last};
    }
  }

  lemma SubsetOfSameSize<T>(a: set<T>, b: set<T>)
    requires a <= b
    ensures a == b <==> |a| == |b|
    ensures |b - a| == |b| - |a|
  {
    assert b == a + (b - a);
  }
}
