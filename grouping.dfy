/**
 * Grouping of a list of values by a parallel list of keys, into a map from
 * key to the list of values filed under it, in list order.  This is what the
 * C++ idiom `m[key].push_back(value)` does inside a loop over a vector: a
 * missing key is first inserted with an empty list.
 */
module Grouping {

  /** The list stored under `k`; an absent key reads as the empty list. */
  function Get<K(==), V>(m: map<K, seq<V>>, k: K): seq<V>
  {
    if k in m then m[k] else []
  }

  /** `m[k].push_back(v)` */
  function Push<K(==), V>(m: map<K, seq<V>>, k: K, v: V): (r: map<K, seq<V>>)
    ensures r.Keys == m.Keys + {k}
    ensures r[k] == Get(m, k) + [v]
    ensures forall k' :: k' in m && k' != k ==> r[k'] == m[k']
  {
    m[k := Get(m, k) + [v]]
  }

  /** The map built by pushing `vals[t]` under `keys[t]` for t = 0, 1, ... */
  function GroupBy<K(==), V>(keys: seq<K>, vals: seq<V>): map<K, seq<V>>
    requires |keys| == |vals|
  {
    if keys == [] then map[]
    else Push(GroupBy(keys[..|keys| - 1], vals[..|vals| - 1]), keys[|keys| - 1], vals[|vals| - 1])
  }

  /** Pushing one more value onto a grouping. */
  lemma GroupBySnoc<K, V>(keys: seq<K>, vals: seq<V>, k: K, v: V)
    requires |keys| == |vals|
    ensures GroupBy(keys + [k], vals + [v]) == Push(GroupBy(keys, vals), k, v)
  {
    assert (keys + [k])[..|keys|] == keys;
    assert (vals + [v])[..|vals|] == vals;
  }

  /** The values whose key is `k`, in list order. */
  function Select<K(==), V>(keys: seq<K>, vals: seq<V>, k: K): seq<V>
    requires |keys| == |vals|
  {
    if keys == [] then []
    else Select(keys[..|keys| - 1], vals[..|vals| - 1], k)
         + (if keys[|keys| - 1] == k then [vals[|vals| - 1]] else [])
  }

  /** The number of positions of `keys` that hold `k`. */
  function Count<K(==)>(keys: seq<K>, k: K): nat
  {
    if keys == [] then 0
    else Count(keys[..|keys| - 1], k) + (if keys[|keys| - 1] == k then 1 else 0)
  }

  predicate Distinct<K(==)>(ks: seq<K>)
  {
    forall a, b :: 0 <= a < b < |ks| ==> ks[a] != ks[b]
  }

  /** The sum of the lengths of the lists stored under the keys `ks`. */
  function SumLengths<K(==), V>(m: map<K, seq<V>>, ks: seq<K>): nat
  {
    if ks == [] then 0 else SumLengths(m, ks[..|ks| - 1]) + |Get(m, ks[|ks| - 1])|
  }

  /** The sum over the keys `ks` of how often each occurs in `keys`. */
  function SumCounts<K(==)>(keys: seq<K>, ks: seq<K>): nat
  {
    if ks == [] then 0 else SumCounts(keys, ks[..|ks| - 1]) + Count(keys, ks[|ks| - 1])
  }

  /** A key is stored exactly when some position of the key list holds it. */
  lemma {:induction false} GroupByKeys<K, V>(keys: seq<K>, vals: seq<V>)
    requires |keys| == |vals|
    ensures GroupBy(keys, vals).Keys == set k | k in keys
  {
    if keys != [] {
      var n := |keys| - 1;
      GroupByKeys(keys[..n], vals[..n]);
      assert keys == keys[..n] + [keys[n]];
    }
  }

  /** The list stored under a key is exactly the values filed under it, in order. */
  lemma {:induction false} GroupByAt<K, V>(keys: seq<K>, vals: seq<V>, k: K)
    requires |keys| == |vals|
    ensures Get(GroupBy(keys, vals), k) == Select(keys, vals, k)
  {
    if keys != [] {
      var n := |keys| - 1;
      GroupByAt(keys[..n], vals[..n], k);
    }
  }

  lemma {:induction false} SelectLength<K, V>(keys: seq<K>, vals: seq<V>, k: K)
    requires |keys| == |vals|
    ensures |Select(keys, vals, k)| == Count(keys, k)
  {
    if keys != [] {
      var n := |keys| - 1;
      SelectLength(keys[..n], vals[..n], k);
    }
  }

  /**
   * Two groupings over the same key list have the same key set and lists of
   * the same length under every key, whatever the values are.
   */
  lemma GroupBySameShape<K, V, W>(keys: seq<K>, vs: seq<V>, ws: seq<W>)
    requires |keys| == |vs| == |ws|
    ensures GroupBy(keys, vs).Keys == GroupBy(keys, ws).Keys
    ensures forall k :: k in GroupBy(keys, vs) ==> |GroupBy(keys, vs)[k]| == |GroupBy(keys, ws)[k]|
  {
    GroupByKeys(keys, vs);
    GroupByKeys(keys, ws);
    forall k | k in GroupBy(keys, vs)
      ensures |GroupBy(keys, vs)[k]| == |GroupBy(keys, ws)[k]|
    {
      GroupByAt(keys, vs, k);
      GroupByAt(keys, ws, k);
      SelectLength(keys, vs, k);
      SelectLength(keys, ws, k);
    }
  }

  lemma {:induction false} CountAbsent<K>(ks: seq<K>, x: K)
    requires x !in ks
    ensures Count(ks, x) == 0
  {
    if ks != [] {
      CountAbsent(ks[..|ks| - 1], x);
    }
  }

  lemma {:induction false} CountDistinct<K>(ks: seq<K>, x: K)
    requires Distinct(ks) && x in ks
    ensures Count(ks, x) == 1
  {
    var n := |ks| - 1;
    if ks[n] == x {
      assert x !in ks[..n];
      CountAbsent(ks[..n], x);
    } else {
      CountDistinct(ks[..n], x);
    }
  }

  /** Appending one key `x` adds, to the sum over `ks`, the number of times `x` occurs in `ks`. */
  lemma {:induction false} SumCountsSnoc<K>(keys: seq<K>, x: K, ks: seq<K>)
    ensures SumCounts(keys + [x], ks) == SumCounts(keys, ks) + Count(ks, x)
  {
    if ks != [] {
      var n := |ks| - 1;
      SumCountsSnoc(keys, x, ks[..n]);
      assert (keys + [x])[..|keys|] == keys;
    }
  }

  lemma {:induction false} SumCountsNone<K>(ks: seq<K>)
    ensures SumCounts([], ks) == 0
  {
    if ks != [] {
      SumCountsNone(ks[..|ks| - 1]);
    }
  }

  lemma {:induction false} SumCountsTotal<K>(keys: seq<K>, ks: seq<K>)
    requires Distinct(ks)
    requires forall k :: k in keys ==> k in ks
    ensures SumCounts(keys, ks) == |keys|
  {
    if keys == [] {
      SumCountsNone(ks);
    } else {
      var n := |keys| - 1;
      assert keys == keys[..n] + [keys[n]];
      SumCountsTotal(keys[..n], ks);
      SumCountsSnoc(keys[..n], keys[n], ks);
      CountDistinct(ks, keys[n]);
    }
  }

  lemma {:induction false} SumLengthsIsSumCounts<K, V>(keys: seq<K>, vals: seq<V>, ks: seq<K>)
    requires |keys| == |vals|
    ensures SumLengths(GroupBy(keys, vals), ks) == SumCounts(keys, ks)
  {
    if ks != [] {
      var n := |ks| - 1;
      SumLengthsIsSumCounts(keys, vals, ks[..n]);
      GroupByAt(keys, vals, ks[n]);
      SelectLength(keys, vals, ks[n]);
    }
  }

  /**
   * Conservation: summed over any duplicate-free enumeration of its keys, the
   * lists of a grouping hold exactly as many values as were pushed.
   */
  lemma GroupByTotal<K, V>(keys: seq<K>, vals: seq<V>, ks: seq<K>)
    requires |keys| == |vals|
    requires Distinct(ks)
    requires forall k :: k in GroupBy(keys, vals) ==> k in ks
    ensures SumLengths(GroupBy(keys, vals), ks) == |keys|
  {
    GroupByKeys(keys, vals);
    SumLengthsIsSumCounts(keys, vals, ks);
    SumCountsTotal(keys, ks);
  }
}
