/**
 * A JavaScript `Map`: its entries in insertion order. `set` on a present
 * key replaces the value in place and on a new key appends an entry; `get`
 * yields the value or `undefined`; `delete` removes the entry. Iteration
 * (`values()`, `keys()`) follows the entry order.
 */
module JsMap {
  import opened Wrappers

  /** The entries of a map, oldest first. */
  type Entries<K(==), V> = seq<(K, V)>

  /** `map.get(k)`: the value of the entry with key `k`, or `undefined`. */
  function Get<K(==), V>(m: Entries<K, V>, k: K): (r: Option<V>)
    ensures r.Some? ==> (k, r.value) in m
    ensures r.None? ==> forall i :: 0 <= i < |m| ==> m[i].0 != k
  {
    if m == [] then None
    else if m[0].0 == k then Some(m[0].1)
    else
      var r := Get(m[1..], k);
      assert forall i :: 1 <= i < |m| ==> m[i] == m[1..][i - 1];
      r
  }

  /** `map.has(k)`. */
  predicate Has<K(==), V>(m: Entries<K, V>, k: K)
  {
    Get(m, k).Some?
  }

  /** No key occurs twice, as in every map that `set` builds from an empty one. */
  predicate DistinctKeys<K(==), V>(m: Entries<K, V>)
  {
    forall i, j :: 0 <= i < j < |m| ==> m[i].0 != m[j].0
  }

  /** The entries after the first of a map with distinct keys have distinct keys, none of them the first key. */
  lemma DistinctRest<K, V>(m: Entries<K, V>)
    requires DistinctKeys(m) && m != []
    ensures DistinctKeys(m[1..]) && !Has(m[1..], m[0].0)
  {
    var r := m[1..];
    forall i, j | 0 <= i < j < |r|
      ensures r[i].0 != r[j].0
    {
      assert r[i] == m[i + 1] && r[j] == m[j + 1];
    }
  }

  /** `map.set(k, v)`: replaces the value of a present key in place, otherwise appends. */
  function Set<K(==), V>(m: Entries<K, V>, k: K, v: V): (r: Entries<K, V>)
    ensures |r| == if Has(m, k) then |m| else |m| + 1
  {
    if m == [] then [(k, v)]
    else if m[0].0 == k then [(k, v)] + m[1..]
    else [m[0]] + Set(m[1..], k, v)
  }

  /** `map.delete(k)`: every entry with key `k` removed. */
  function Delete<K(==), V>(m: Entries<K, V>, k: K): (r: Entries<K, V>)
    ensures |r| <= |m|
    ensures !Has(r, k)
    ensures |r| < |m| <==> Has(m, k)
  {
    if m == [] then []
    else if m[0].0 == k then Delete(m[1..], k)
    else [m[0]] + Delete(m[1..], k)
  }

  /** After `set(k, v)`, `get(k)` is `v` and every other key reads as before. */
  lemma {:induction false} GetSet<K, V>(m: Entries<K, V>, k: K, v: V, j: K)
    ensures Get(Set(m, k, v), j) == if j == k then Some(v) else Get(m, j)
  {
    if m != [] && m[0].0 != k {
      var r := Set(m, k, v);
      assert r[1..] == Set(m[1..], k, v);
      GetSet(m[1..], k, v, j);
    } else if m != [] {
      assert Set(m, k, v)[1..] == m[1..];
    }
  }

  /** After `delete(k)`, `get(k)` is `undefined` and every other key reads as before. */
  lemma {:induction false} GetDelete<K, V>(m: Entries<K, V>, k: K, j: K)
    ensures Get(Delete(m, k), j) == if j == k then None else Get(m, j)
  {
    if m != [] {
      GetDelete(m[1..], k, j);
      if m[0].0 != k {
        assert Delete(m, k)[1..] == Delete(m[1..], k);
      }
    }
  }

  /** `set` keeps the keys distinct. */
  lemma SetDistinct<K, V>(m: Entries<K, V>, k: K, v: V)
    requires DistinctKeys(m)
    ensures DistinctKeys(Set(m, k, v))
  {
    SetKeys(m, k, v);
    var r := Set(m, k, v);
    if !Has(m, k) {
      forall i, j | 0 <= i < j < |r|
        ensures r[i].0 != r[j].0
      {
        if j == |m| {
          assert r[i] == m[i];
        }
      }
    }
  }

  /** The position of the entry with key `k`, or -1 when there is none. */
  function IndexOf<K(==), V>(m: Entries<K, V>, k: K): (i: int)
    ensures -1 <= i < |m|
    ensures i >= 0 ==> m[i].0 == k && Get(m, k) == Some(m[i].1)
    ensures i < 0 <==> !Has(m, k)
  {
    if m == [] then -1
    else if m[0].0 == k then 0
    else
      var j := IndexOf(m[1..], k);
      if j < 0 then -1 else j + 1
  }

  /** In a map with distinct keys, the entry at position `i` is what `get` finds for its key. */
  lemma {:induction false} GetEntry<K, V>(m: Entries<K, V>, i: nat)
    requires DistinctKeys(m) && i < |m|
    ensures Get(m, m[i].0) == Some(m[i].1)
  {
    if i > 0 {
      DistinctRest(m);
      GetEntry(m[1..], i - 1);
      assert m[1..][i - 1] == m[i];
    }
  }

  /** `set` on a present key keeps every key in its place; on a new key it appends one entry. */
  lemma {:induction false} SetKeys<K, V>(m: Entries<K, V>, k: K, v: V)
    ensures forall i :: 0 <= i < |m| ==> Set(m, k, v)[i].0 == m[i].0
    ensures !Has(m, k) ==> Set(m, k, v) == m + [(k, v)]
  {
    if m != [] && m[0].0 != k {
      SetKeys(m[1..], k, v);
      assert m == [m[0]] + m[1..];
    }
  }

  /** `delete` keeps the other entries and no entry with key `k`; it keeps the keys distinct. */
  lemma {:induction false} DeleteKeys<K, V>(m: Entries<K, V>, k: K)
    ensures forall e :: e in Delete(m, k) ==> e in m && e.0 != k
    ensures DistinctKeys(m) ==> DistinctKeys(Delete(m, k))
  {
    if m != [] {
      DeleteKeys(m[1..], k);
      var r := Delete(m, k);
      if DistinctKeys(m) {
        DistinctRest(m);
        if m[0].0 != k {
          assert r == [m[0]] + Delete(m[1..], k);
          forall i, j | 0 <= i < j < |r|
            ensures r[i].0 != r[j].0
          {
            if i == 0 {
              assert r[j] in Delete(m[1..], k);
              assert r[j] in m[1..];
            } else {
              assert r[i] == Delete(m[1..], k)[i - 1] && r[j] == Delete(m[1..], k)[j - 1];
            }
          }
        }
      }
    }
  }
}
