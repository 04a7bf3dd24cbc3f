/** Python's insertion-ordered `dict`, as a sequence of items. */
module OrderedDict {
  import opened Sequences

  type Dict<K, V> = seq<(K, V)>

  predicate Has<K(==), V>(d: Dict<K, V>, k: K)
  {
    exists i :: 0 <= i < |d| && d[i].0 == k
  }

  ghost predicate UniqueKeys<K, V>(d: Dict<K, V>)
  {
    forall i, j :: 0 <= i < j < |d| ==> d[i].0 != d[j].0
  }

  function Lookup<K(==), V>(d: Dict<K, V>, k: K): (r: Option<V>)
    ensures r.Some? <==> Has(d, k)
  {
    if d == [] then None
    else if d[0].0 == k then Some(d[0].1)
    else Lookup(d[1..], k)
  }

  /** `d[k] = v`: an existing key keeps its place. */
  function Put<K(==, !new), V>(d: Dict<K, V>, k: K, v: V): (r: Dict<K, V>)
    ensures forall key: K :: Lookup(r, key) == if key == k then Some(v) else Lookup(d, key)
    ensures !Has(d, k) ==> r == d + [(k, v)]
    ensures Has(d, k) ==> |r| == |d|
    ensures forall i :: 0 <= i < |d| ==> r[i].0 == d[i].0
  {
    if d == [] then [(k, v)]
    else if d[0].0 == k then [(k, v)] + d[1..]
    else
      assert d == [d[0]] + d[1..];
      [d[0]] + Put(d[1..], k, v)
  }

  function PutAll<K(==, !new), V>(d: Dict<K, V>, items: seq<(K, V)>): Dict<K, V>
  {
    if items == [] then d
    else
      var last := items[|items| - 1];
      Put(PutAll(d, items[..|items| - 1]), last.0, last.1)
  }

  function Values<K, V>(d: Dict<K, V>): seq<V>
  {
    seq(|d|, i requires 0 <= i < |d| => d[i].1)
  }

  /** The value of the last item with key `k`. */
  function LastValue<K(==), V>(items: seq<(K, V)>, k: K): Option<V>
  {
    if items == [] then None
    else if items[|items| - 1].0 == k then Some(items[|items| - 1].1)
    else LastValue(items[..|items| - 1], k)
  }

  lemma PutKeepsKeysUnique<K(!new), V>(d: Dict<K, V>, k: K, v: V)
    requires UniqueKeys(d)
    ensures UniqueKeys(Put(d, k, v))
  {
  }

  /** Filling an empty dict: every key once, holding its last value. */
  lemma {:induction false} PutAllMeaning<K(!new), V>(items: seq<(K, V)>, k: K)
    ensures UniqueKeys(PutAll([], items))
    ensures Lookup(PutAll([], items), k) == LastValue(items, k)
  {
    if items != [] {
      var n := |items| - 1;
      PutAllMeaning(items[..n], k);
      PutKeepsKeysUnique(PutAll([], items[..n]), items[n].0, items[n].1);
    }
  }

  lemma {:induction false} LookupOfItem<K, V>(d: Dict<K, V>, i: nat)
    requires UniqueKeys(d) && i < |d|
    ensures Lookup(d, d[i].0) == Some(d[i].1)
  {
    if i > 0 {
      assert d[0].0 != d[i].0;
      LookupOfItem(d[1..], i - 1);
    }
  }

  lemma PutAllStep<K(!new), V>(d: Dict<K, V>, items: seq<(K, V)>, item: (K, V))
    ensures PutAll(d, items + [item]) == Put(PutAll(d, items), item.0, item.1)
  {
    assert (items + [item])[..|items|] == items;
  }
}
