/** JavaScript's `Map` as the processor uses it: `set` on a new key appends
    the key to the iteration order, `set` on a present key replaces its value
    and keeps its place. */
module OrderedMaps {

  datatype OrderedMap<K, V> = OrderedMap(keys: seq<K>, values: map<K, V>) {

    /** Keys iterate once each, and exactly the mapped keys iterate. */
    ghost predicate Valid() {
      && (forall i, j | 0 <= i < j < |keys| :: keys[i] != keys[j])
      && values.Keys == (set k | k in keys)
    }

    /** `map.set(k, v)`. */
    function Set(k: K, v: V): (m: OrderedMap<K, V>)
      requires Valid()
      ensures m.Valid()
      ensures m.values == values[k := v]
      ensures k in values ==> m.keys == keys
      ensures k !in values ==> m.keys == keys + [k]
    {
      if k in values then OrderedMap(keys, values[k := v])
      else OrderedMap(keys + [k], values[k := v])
    }

    /** The `[key, value]` pairs in iteration order. */
    function Entries(): (es: seq<(K, V)>)
      requires Valid()
      ensures |es| == |keys|
      ensures forall i :: 0 <= i < |keys| ==> es[i] == (keys[i], values[keys[i]])
    {
      seq(|keys|, i requires 0 <= i < |keys| => (keys[i], values[keys[i]]))
    }
  }

  function Empty<K, V>(): (m: OrderedMap<K, V>)
    ensures m.Valid() && m.keys == []
  {
    OrderedMap([], map[])
  }

  /** `pairs.forEach(([k, v]) => map.set(k, v))`. */
  function SetAll<K, V>(m: OrderedMap<K, V>, pairs: seq<(K, V)>): (r: OrderedMap<K, V>)
    requires m.Valid()
    ensures r.Valid()
  {
    if pairs == [] then m
    else SetAll(m, pairs[..|pairs| - 1]).Set(pairs[|pairs| - 1].0, pairs[|pairs| - 1].1)
  }

  lemma {:induction false} SetAllAppend<K, V>(m: OrderedMap<K, V>, a: seq<(K, V)>, b: seq<(K, V)>)
    requires m.Valid()
    ensures SetAll(m, a + b) == SetAll(SetAll(m, a), b)
    decreases |b|
  {
    if b == [] {
      assert a + b == a;
    } else {
      var n := |b| - 1;
      assert (a + b)[..|a + b| - 1] == a + b[..n];
      SetAllAppend(m, a, b[..n]);
    }
  }

  /** The keys of `pairs`, in order, repeats included. */
  function KeysOf<K, V>(pairs: seq<(K, V)>): (ks: seq<K>)
    ensures |ks| == |pairs|
    ensures forall i :: 0 <= i < |pairs| ==> ks[i] == pairs[i].0
  {
    if pairs == [] then [] else KeysOf(pairs[..|pairs| - 1]) + [pairs[|pairs| - 1].0]
  }

  /** Index of the first occurrence of `k`. */
  function FirstIndex<K(==)>(ks: seq<K>, k: K): (i: nat)
    requires k in ks
    ensures i < |ks| && ks[i] == k
    ensures forall j :: 0 <= j < i ==> ks[j] != k
  {
    if ks[0] == k then 0 else 1 + FirstIndex(ks[1..], k)
  }

  lemma FirstIndexAppend<K>(ks: seq<K>, more: seq<K>, k: K)
    requires k in ks
    ensures FirstIndex(ks + more, k) == FirstIndex(ks, k)
  {
    var i, i' := FirstIndex(ks, k), FirstIndex(ks + more, k);
    assert (ks + more)[i] == k;
    assert i' <= i;
  }

  /** Setting every pair into an empty map: exactly the keys of the pairs
      are mapped. */
  lemma {:induction false} SetAllKeys<K, V>(pairs: seq<(K, V)>)
    ensures forall k :: k in SetAll(Empty(), pairs).values <==> k in KeysOf(pairs)
  {
    if pairs != [] {
      var n := |pairs| - 1;
      SetAllKeys(pairs[..n]);
      assert KeysOf(pairs) == KeysOf(pairs[..n]) + [pairs[n].0];
    }
  }

  /** A key maps to the value of the last pair that carries it. */
  lemma {:induction false} SetAllLastWins<K, V>(pairs: seq<(K, V)>, i: nat)
    requires i < |pairs|
    requires forall j :: i < j < |pairs| ==> pairs[j].0 != pairs[i].0
    ensures pairs[i].0 in SetAll(Empty(), pairs).values
    ensures SetAll(Empty(), pairs).values[pairs[i].0] == pairs[i].1
  {
    var n := |pairs| - 1;
    if i < n {
      var prefix := pairs[..n];
      assert prefix[i] == pairs[i];
      SetAllLastWins(prefix, i);
    }
  }

  /** Every key of `ks` occurs in `all`, and `ks` lists them in the order of
      their first occurrence in `all`. */
  ghost predicate InFirstOccurrenceOrder<K>(ks: seq<K>, all: seq<K>) {
    && (forall a :: 0 <= a < |ks| ==> ks[a] in all)
    && (forall a, b :: 0 <= a < b < |ks| ==> FirstIndex(all, ks[a]) < FirstIndex(all, ks[b]))
  }

  lemma OrderStep<K>(ks: seq<K>, all: seq<K>, k: K)
    requires InFirstOccurrenceOrder(ks, all)
    requires forall x :: x in ks <==> x in all
    ensures InFirstOccurrenceOrder(if k in ks then ks else ks + [k], all + [k])
  {
    var ks' := if k in ks then ks else ks + [k];
    forall a | 0 <= a < |ks'| ensures ks'[a] in all + [k] {
      if a < |ks| { assert ks'[a] == ks[a]; }
    }
    forall a, b | 0 <= a < b < |ks'|
      ensures FirstIndex(all + [k], ks'[a]) < FirstIndex(all + [k], ks'[b])
    {
      assert ks'[a] == ks[a];
      FirstIndexAppend(all, [k], ks[a]);
      if b < |ks| {
        assert ks'[b] == ks[b];
        FirstIndexAppend(all, [k], ks[b]);
      } else {
        assert ks'[b] == k && k !in all;
        assert (all + [k])[|all|] == k;
      }
    }
  }

  /** Keys iterate in the order in which each was first set. */
  lemma {:induction false} SetAllFirstSetOrder<K, V>(pairs: seq<(K, V)>)
    ensures InFirstOccurrenceOrder(SetAll(Empty(), pairs).keys, KeysOf(pairs))
  {
    if pairs != [] {
      var n := |pairs| - 1;
      var prefix := pairs[..n];
      SetAllFirstSetOrder(prefix);
      SetAllKeys(prefix);
      var m := SetAll(Empty<K, V>(), prefix);
      assert KeysOf(pairs) == KeysOf(prefix) + [pairs[n].0];
      assert forall x :: x in m.keys <==> x in m.values;
      OrderStep(m.keys, KeysOf(prefix), pairs[n].0);
    }
  }

  lemma {:induction false} DistinctCard<K>(ks: seq<K>)
    requires forall i, j | 0 <= i < j < |ks| :: ks[i] != ks[j]
    ensures |set k | k in ks| == |ks|
  {
    if ks != [] {
      var n := |ks| - 1;
      DistinctCard(ks[..n]);
      assert (set k | k in ks) == (set k | k in ks[..n]) + {ks[n]};
      assert ks[n] !in (set k | k in ks[..n]);
    }
  }

  /** The map's size is the number of distinct keys of the pairs set into it. */
  lemma SetAllSize<K, V>(pairs: seq<(K, V)>)
    ensures |SetAll(Empty(), pairs).keys| == |set k | k in KeysOf(pairs)|
  {
    var r := SetAll(Empty<K, V>(), pairs);
    SetAllKeys(pairs);
    DistinctCard(r.keys);
    SameSet(r.keys, KeysOf(pairs), r.values.Keys);
  }

  lemma SameSet<K>(a: seq<K>, b: seq<K>, s: set<K>)
    requires s == (set k | k in a)
    requires forall k :: k in s <==> k in b
    ensures (set k | k in a) == (set k | k in b)
  {
  }
}
