/** Python's insertion-ordered `dict`, modelled as an association list whose
    keys are pairwise distinct. */
module PyDict {
  import opened Base

  type Dict<K, V> = seq<(K, V)>

  /** The keys in insertion order. */
  function Keys<K, V>(d: Dict<K, V>): (ks: seq<K>)
    ensures |ks| == |d|
    ensures forall i :: 0 <= i < |d| ==> ks[i] == d[i].0
  {
    if d == [] then [] else [d[0].0] + Keys(d[1..])
  }

  /** The dictionary invariant: no key occurs twice. */
  predicate Valid<K(==), V>(d: Dict<K, V>) {
    Distinct(Keys(d))
  }

  predicate HasKey<K(==), V>(d: Dict<K, V>, k: K) {
    k in Keys(d)
  }

  /** `d.get(k)`, with `None` for a missing key. */
  function Get<K(==), V>(d: Dict<K, V>, k: K): (r: Option<V>)
    ensures r.Some? <==> HasKey(d, k)
    ensures r.Some? ==> (k, r.value) in d
  {
    if d == [] then None
    else if d[0].0 == k then Some(d[0].1)
    else Get(d[1..], k)
  }

  /** `d[k] = v`: overwrites in place when `k` is present, appends otherwise. */
  function Put<K(==), V>(d: Dict<K, V>, k: K, v: V): (r: Dict<K, V>)
    ensures HasKey(d, k) ==> |r| == |d|
    ensures !HasKey(d, k) ==> r == d + [(k, v)]
    ensures forall i :: 0 <= i < |d| ==> r[i].0 == d[i].0
  {
    if d == [] then [(k, v)]
    else if d[0].0 == k then [(k, v)] + d[1..]
    else [d[0]] + Put(d[1..], k, v)
  }

  /** `d.pop(k, None)`: removes `k` when present, keeps the others in order. */
  function Pop<K(==), V>(d: Dict<K, V>, k: K): (r: Dict<K, V>)
    ensures |r| <= |d|
    ensures forall i :: 0 <= i < |r| ==> r[i] in d && r[i].0 != k
    ensures forall i :: 0 <= i < |d| && d[i].0 != k ==> d[i] in r
  {
    if d == [] then []
    else if d[0].0 == k then Pop(d[1..], k)
    else [d[0]] + Pop(d[1..], k)
  }

  lemma {:induction false} KeysAppend<K, V>(a: Dict<K, V>, b: Dict<K, V>)
    ensures Keys(a + b) == Keys(a) + Keys(b)
  {
    if a != [] {
      assert (a + b)[1..] == a[1..] + b;
      KeysAppend(a[1..], b);
    }
  }

  /** Writing `k` leaves the key set grown by exactly `k`. */
  lemma PutKeys<K, V>(d: Dict<K, V>, k: K, v: V)
    ensures forall j :: HasKey(Put(d, k, v), j) <==> HasKey(d, j) || j == k
  {
    var r := Put(d, k, v);
    if HasKey(d, k) {
      assert Keys(r) == Keys(d);
    } else {
      KeysAppend(d, [(k, v)]);
      assert Keys([(k, v)]) == [k];
    }
  }

  /** Writing a key keeps the keys distinct. */
  lemma PutValid<K, V>(d: Dict<K, V>, k: K, v: V)
    requires Valid(d)
    ensures Valid(Put(d, k, v))
  {
    var r := Put(d, k, v);
    if HasKey(d, k) {
      assert Keys(r) == Keys(d);
    } else {
      assert Keys(r) == Keys(d) + [k];
      DistinctConcat(Keys(d), [k]);
    }
  }

  /** After `d[k] = v`, `k` reads `v` and every other key reads as before. */
  lemma {:induction false} PutGet<K, V>(d: Dict<K, V>, k: K, v: V)
    ensures Get(Put(d, k, v), k) == Some(v)
    ensures forall j :: j != k ==> Get(Put(d, k, v), j) == Get(d, j)
  {
    if d != [] && d[0].0 != k {
      PutGet(d[1..], k, v);
    }
  }
}
