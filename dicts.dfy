/** Python's `dict`, which remembers insertion order, modelled as the sequence
    of its items. Assigning to a key that is present keeps the item where it
    is; a new key is appended. */
module Dicts {

  type Dict<K, V> = seq<(K, V)>

  /** `tuple(d.keys())` */
  function Keys<K(==,!new), V(!new)>(d: Dict<K, V>): (ks: seq<K>)
    ensures |ks| == |d|
    ensures forall i {:trigger ks[i]} :: 0 <= i < |d| ==> ks[i] == d[i].0
  {
    if d == [] then [] else [d[0].0] + Keys(d[1..])
  }

  /** `tuple(d.values())` */
  function Values<K(==,!new), V(!new)>(d: Dict<K, V>): (vs: seq<V>)
    ensures |vs| == |d|
    ensures forall i {:trigger vs[i]} :: 0 <= i < |d| ==> vs[i] == d[i].1
  {
    if d == [] then [] else [d[0].1] + Values(d[1..])
  }

  /** No key occurs twice, which holds of every real dict. */
  ghost predicate DistinctKeys<K(!new), V(!new)>(d: Dict<K, V>) {
    d == [] || (d[0].0 !in Keys(d[1..]) && DistinctKeys(d[1..]))
  }

  /** The same, item by item. */
  lemma {:induction false} DistinctKeysPairwise<K(!new), V(!new)>(d: Dict<K, V>)
    ensures DistinctKeys(d) <==> forall i, j :: 0 <= i < j < |d| ==> d[i].0 != d[j].0
  {
    if d != [] {
      DistinctKeysPairwise(d[1..]);
      assert forall j :: 1 <= j < |d| ==> d[1..][j - 1] == d[j];
      assert d[0].0 in Keys(d[1..]) <==> exists j :: 1 <= j < |d| && d[j].0 == d[0].0 by {
        if d[0].0 in Keys(d[1..]) {
          var j :| 0 <= j < |d| - 1 && Keys(d[1..])[j] == d[0].0;
          assert d[j + 1].0 == d[0].0;
        }
        if exists j :: 1 <= j < |d| && d[j].0 == d[0].0 {
          var j :| 1 <= j < |d| && d[j].0 == d[0].0;
          assert Keys(d[1..])[j - 1] == d[0].0;
        }
      }
    }
  }

  /** `d.get(k, default)` */
  function Get<K(==,!new), V(!new)>(d: Dict<K, V>, k: K, default: V): V
  {
    if d == [] then default
    else if d[0].0 == k then d[0].1
    else Get(d[1..], k, default)
  }

  /** `d[k] = v` */
  function Put<K(==,!new), V(!new)>(d: Dict<K, V>, k: K, v: V): Dict<K, V>
  {
    if d == [] then [(k, v)]
    else if d[0].0 == k then [(k, v)] + d[1..]
    else [d[0]] + Put(d[1..], k, v)
  }

  /** A key that is absent reads as the default. */
  lemma {:induction false} GetMissing<K(!new), V(!new)>(d: Dict<K, V>, k: K, default: V)
    requires k !in Keys(d)
    ensures Get(d, k, default) == default
  {
    if d != [] {
      assert Keys(d) == [d[0].0] + Keys(d[1..]);
      GetMissing(d[1..], k, default);
    }
  }

  /** A key that is present reads the same whatever the default. */
  lemma {:induction false} GetPresent<K(!new), V(!new)>(d: Dict<K, V>, k: K, default1: V, default2: V)
    requires k in Keys(d)
    ensures Get(d, k, default1) == Get(d, k, default2)
  {
    if d[0].0 != k {
      assert k in Keys(d[1..]);
      GetPresent(d[1..], k, default1, default2);
    }
  }

  /** Assigning to an absent key appends the item at the end. */
  lemma {:induction false} PutNew<K(!new), V(!new)>(d: Dict<K, V>, k: K, v: V)
    requires k !in Keys(d)
    ensures Put(d, k, v) == d + [(k, v)]
  {
    if d != [] {
      assert Keys(d) == [d[0].0] + Keys(d[1..]);
      PutNew(d[1..], k, v);
      assert [d[0]] + (d[1..] + [(k, v)]) == d + [(k, v)];
    }
  }

  /** After `d[k] = v` the keys are the old ones and `k`. */
  lemma {:induction false} PutKeys<K(!new), V(!new)>(d: Dict<K, V>, k: K, v: V)
    ensures forall x :: x in Keys(Put(d, k, v)) <==> x == k || x in Keys(d)
  {
    if d != [] && d[0].0 != k {
      PutKeys(d[1..], k, v);
      assert Keys(Put(d, k, v)) == [d[0].0] + Keys(Put(d[1..], k, v));
      assert Keys(d) == [d[0].0] + Keys(d[1..]);
    }
  }

  /** Reading back after `d[k] = v` sees `v` at `k` and the old entries elsewhere. */
  lemma {:induction false} GetPut<K(!new), V(!new)>(d: Dict<K, V>, k: K, v: V, x: K, default: V)
    ensures Get(Put(d, k, v), x, default) == if x == k then v else Get(d, x, default)
  {
    if d != [] && d[0].0 != k {
      GetPut(d[1..], k, v, x, default);
    }
  }

  /** Assignment never creates a second item for a key. */
  lemma {:induction false} PutKeepsKeysDistinct<K(!new), V(!new)>(d: Dict<K, V>, k: K, v: V)
    requires DistinctKeys(d)
    ensures DistinctKeys(Put(d, k, v))
  {
    if d != [] {
      if d[0].0 == k {
        assert Put(d, k, v)[1..] == d[1..];
      } else {
        PutKeepsKeysDistinct(d[1..], k, v);
        PutKeys(d[1..], k, v);
        assert Put(d, k, v)[1..] == Put(d[1..], k, v);
      }
    }
  }

  /** The dict built from a sequence of pairs, `dict(pairs)`: for a repeated
      key the later pair wins. As a map it forgets the order, which is what
      comparing two dicts with `==` looks at. */
  function AsMap<K(==,!new), V(!new)>(pairs: seq<(K, V)>): (m: map<K, V>)
    ensures forall x :: x in m <==> x in Keys(pairs)
  {
    if pairs == [] then map[]
    else map[pairs[0].0 := pairs[0].1] + AsMap(pairs[1..])
  }

  /** For a duplicate-free sequence of pairs the map reads like `get`. */
  lemma {:induction false} AsMapGet<K(!new), V(!new)>(pairs: seq<(K, V)>, x: K, default: V)
    requires DistinctKeys(pairs) && x in Keys(pairs)
    ensures x in AsMap(pairs) && AsMap(pairs)[x] == Get(pairs, x, default)
  {
    if pairs[0].0 != x {
      assert x in Keys(pairs[1..]);
      AsMapGet(pairs[1..], x, default);
    }
  }

  /** `get` on a duplicate-free dict, read on its map. */
  lemma GetAsMap<K(!new), V(!new)>(d: Dict<K, V>, k: K, default: V)
    requires DistinctKeys(d)
    ensures Get(d, k, default) == if k in AsMap(d) then AsMap(d)[k] else default
  {
    if k in Keys(d) {
      AsMapGet(d, k, default);
    } else {
      GetMissing(d, k, default);
    }
  }

  /** In a duplicate-free dict, the key of the `i`-th item reads as its value. */
  lemma {:induction false} GetAt<K(!new), V(!new)>(d: Dict<K, V>, i: int, default: V)
    requires DistinctKeys(d) && 0 <= i < |d|
    ensures Get(d, d[i].0, default) == d[i].1
    decreases i
  {
    if i > 0 {
      assert Keys(d[1..])[i - 1] == d[i].0;
      GetAt(d[1..], i - 1, default);
    }
  }

  /** `d.pop(k, None)` with the popped value discarded: the dict without `k`. */
  function Remove<K(==,!new), V(!new)>(d: Dict<K, V>, k: K): (r: Dict<K, V>)
    ensures forall x :: x in Keys(r) <==> x in Keys(d) && x != k
  {
    if d == [] then []
    else if d[0].0 == k then Remove(d[1..], k)
    else
      var r := [d[0]] + Remove(d[1..], k);
      assert Keys(r) == [d[0].0] + Keys(Remove(d[1..], k));
      assert Keys(d) == [d[0].0] + Keys(d[1..]);
      r
  }

  /** Removing an absent key changes nothing. */
  lemma {:induction false} RemoveMissing<K(!new), V(!new)>(d: Dict<K, V>, k: K)
    requires k !in Keys(d)
    ensures Remove(d, k) == d
  {
    if d != [] {
      assert k !in Keys(d[1..]);
      RemoveMissing(d[1..], k);
    }
  }

  /** Removing a key never creates a second item for another. */
  lemma {:induction false} RemoveKeepsKeysDistinct<K(!new), V(!new)>(d: Dict<K, V>, k: K)
    requires DistinctKeys(d)
    ensures DistinctKeys(Remove(d, k))
  {
    if d != [] {
      RemoveKeepsKeysDistinct(d[1..], k);
      if d[0].0 != k {
        assert Remove(d, k)[1..] == Remove(d[1..], k);
      }
    }
  }

  /** Removing `k` leaves the other entries readable as before. */
  lemma {:induction false} GetRemove<K(!new), V(!new)>(d: Dict<K, V>, k: K, x: K, default: V)
    requires x != k
    ensures Get(Remove(d, k), x, default) == Get(d, x, default)
  {
    if d != [] {
      GetRemove(d[1..], k, x, default);
    }
  }

  /** As a map, removal is map subtraction. */
  lemma AsMapRemove<K(!new), V(!new)>(d: Dict<K, V>, k: K)
    requires DistinctKeys(d)
    ensures AsMap(Remove(d, k)) == AsMap(d) - {k}
  {
    var a, b := AsMap(Remove(d, k)), AsMap(d) - {k};
    RemoveKeepsKeysDistinct(d, k);
    forall x | x in a ensures x in b && a[x] == b[x] {
      AsMapGet(Remove(d, k), x, a[x]);
      AsMapGet(d, x, a[x]);
      GetRemove(d, k, x, a[x]);
    }
    assert forall x :: x in b ==> x in a;
  }

  /** For a duplicate-free dict, assignment is map update. */
  lemma AsMapPut<K(!new), V(!new)>(d: Dict<K, V>, k: K, v: V)
    requires DistinctKeys(d)
    ensures AsMap(Put(d, k, v)) == AsMap(d)[k := v]
  {
    var a, b := AsMap(Put(d, k, v)), AsMap(d)[k := v];
    PutKeepsKeysDistinct(d, k, v);
    PutKeys(d, k, v);
    forall x | x in a ensures x in b && a[x] == b[x] {
      AsMapGet(Put(d, k, v), x, v);
      GetPut(d, k, v, x, v);
      if x != k {
        AsMapGet(d, x, v);
      }
    }
    forall x | x in b ensures x in a {
    }
    assert a.Keys == b.Keys;
  }

  /** In a duplicate-free dict, an item is present exactly when its key
      reads as its value. */
  lemma {:induction false} MemberAsMap<K(!new), V(!new)>(d: Dict<K, V>, x: (K, V))
    requires DistinctKeys(d)
    ensures x in d <==> x.0 in AsMap(d) && AsMap(d)[x.0] == x.1
  {
    if d != [] {
      MemberAsMap(d[1..], x);
      if x.0 == d[0].0 {
        assert x.0 !in Keys(d[1..]);
      }
    }
  }

  /** `d |= e` for a dict `e`: each item of `e` in turn is assigned into `d`. */
  function Update<K(==,!new), V(!new)>(d: Dict<K, V>, e: Dict<K, V>): Dict<K, V>
    decreases |e|
  {
    if e == [] then d else Update(Put(d, e[0].0, e[0].1), e[1..])
  }

  lemma UnionAfterUpdate<K(!new), V(!new)>(m: map<K, V>, k: K, v: V, n: map<K, V>)
    ensures m[k := v] + n == m + (map[k := v] + n)
  {
  }

  /** As a map, `d |= e` is the union in which `e` wins. */
  lemma {:induction false} AsMapUpdate<K(!new), V(!new)>(d: Dict<K, V>, e: Dict<K, V>)
    requires DistinctKeys(d)
    ensures DistinctKeys(Update(d, e))
    ensures AsMap(Update(d, e)) == AsMap(d) + AsMap(e)
    decreases |e|
  {
    if e != [] {
      var (k, v) := e[0];
      PutKeepsKeysDistinct(d, k, v);
      AsMapPut(d, k, v);
      AsMapUpdate(Put(d, k, v), e[1..]);
      UnionAfterUpdate(AsMap(d), k, v, AsMap(e[1..]));
    }
  }
}
