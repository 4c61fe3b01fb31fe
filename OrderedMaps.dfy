/**
 * A `Dictionary<K, V>` that is only ever added to, as a sequence of
 * entries in insertion order. The registries and the URI parameter
 * tables of the library all fill a dictionary with the same idiom: replace
 * the value of a key already present, add the entry otherwise.
 */
module OrderedMaps {
  import opened Wrappers

  /** The keys, in insertion order. */
  function Keys<K, V>(m: seq<(K, V)>): seq<K> {
    seq(|m|, i requires 0 <= i < |m| => m[i].0)
  }

  /** No key occurs twice, as in any dictionary. */
  predicate KeysDistinct<K(==), V>(m: seq<(K, V)>) {
    forall i, j :: 0 <= i < j < |m| ==> m[i].0 != m[j].0
  }

  /** `ContainsKey`. */
  predicate HasKey<K(==), V>(m: seq<(K, V)>, k: K) {
    exists i :: 0 <= i < |m| && m[i].0 == k
  }

  /** The position of the first entry for `k`, or -1. */
  function IndexOfKey<K(==), V>(m: seq<(K, V)>, k: K): (r: int)
    ensures -1 <= r < |m|
    ensures r == -1 <==> !HasKey(m, k)
    ensures 0 <= r ==> m[r].0 == k && forall i :: 0 <= i < r ==> m[i].0 != k
  {
    if |m| == 0 then -1
    else if m[0].0 == k then 0
    else
      var r := IndexOfKey(m[1..], k);
      if r == -1 then -1 else r + 1
  }

  /** The first entry for a key is the one `IndexOfKey` finds. */
  lemma IndexOfKeyAt<K, V>(m: seq<(K, V)>, k: K, i: int)
    requires 0 <= i < |m| && m[i].0 == k && forall n :: 0 <= n < i ==> m[n].0 != k
    ensures IndexOfKey(m, k) == i
  {
    assert HasKey(m, k);
  }

  /** In a table with distinct keys, each entry is what its key looks up. */
  lemma LookupAt<K, V>(m: seq<(K, V)>, i: int)
    requires KeysDistinct(m) && 0 <= i < |m|
    ensures Lookup(m, m[i].0) == Some(m[i].1)
  {
    IndexOfKeyAt(m, m[i].0, i);
  }

  /**
   * With distinct keys, the last entry answers for its own key and the
   * entries before it for every other key.
   */
  lemma LookupLast<K, V>(m: seq<(K, V)>, k: K)
    requires KeysDistinct(m) && |m| > 0
    ensures Lookup(m, k) == if k == m[|m| - 1].0 then Some(m[|m| - 1].1) else Lookup(m[..|m| - 1], k)
  {
    var n := |m| - 1;
    var init := m[..n];
    if k == m[n].0 {
      IndexOfKeyAt(m, k, n);
    } else if HasKey(init, k) {
      IndexOfKeyAt(m, k, IndexOfKey(init, k));
    } else {
      assert !HasKey(m, k) by {
        forall i | 0 <= i < |m| ensures m[i].0 != k {
          if i < n { assert m[i] == init[i]; }
        }
      }
    }
  }

  /** `TryGetValue`: the value stored for `k`, if any. */
  function Lookup<K(==), V>(m: seq<(K, V)>, k: K): (r: Option<V>)
    ensures r.None? <==> !HasKey(m, k)
    ensures r.Some? ==> (k, r.value) in m
  {
    var i := IndexOfKey(m, k);
    if i == -1 then None else Some(m[i].1)
  }

  /**
   * `if (d.ContainsKey(k)) d[k] = v; else d.Add(k, v);`: a present key keeps
   * its position and takes the new value, a new key is appended.
   */
  function Upsert<K(==), V>(m: seq<(K, V)>, k: K, v: V): seq<(K, V)> {
    var i := IndexOfKey(m, k);
    if i == -1 then m + [(k, v)] else m[i := (k, v)]
  }

  /** After an upsert the key maps to the new value. */
  lemma UpsertFound<K, V>(m: seq<(K, V)>, k: K, v: V)
    ensures Lookup(Upsert(m, k, v), k) == Some(v)
  {
    var i := IndexOfKey(m, k);
    if i == -1 {
      IndexOfKeyAt(m + [(k, v)], k, |m|);
    } else {
      IndexOfKeyAt(m[i := (k, v)], k, i);
    }
  }

  /** An upsert leaves every other key as it was. */
  lemma UpsertOther<K, V>(m: seq<(K, V)>, k: K, v: V, other: K)
    requires other != k
    ensures Lookup(Upsert(m, k, v), other) == Lookup(m, other)
  {
    var i := IndexOfKey(m, k);
    var j := IndexOfKey(m, other);
    var r := Upsert(m, k, v);
    if j == -1 {
      assert !HasKey(r, other) by {
        forall n | 0 <= n < |r| ensures r[n].0 != other {
          if n < |m| && n != i { assert r[n] == m[n]; }
        }
      }
    } else {
      assert r[j] == m[j];
      assert forall n :: 0 <= n < j ==> r[n].0 != other by {
        forall n | 0 <= n < j ensures r[n].0 != other {
          if n != i { assert r[n] == m[n]; }
        }
      }
      IndexOfKeyAt(r, other, j);
    }
  }

  /** An upsert of a present key keeps the key order; a new key goes last. */
  lemma UpsertKeys<K, V>(m: seq<(K, V)>, k: K, v: V)
    ensures HasKey(m, k) ==> Keys(Upsert(m, k, v)) == Keys(m)
    ensures !HasKey(m, k) ==> Keys(Upsert(m, k, v)) == Keys(m) + [k]
  {
    var r := Upsert(m, k, v);
    if HasKey(m, k) {
      assert Keys(r) == Keys(m) by {
        forall n | 0 <= n < |m| ensures Keys(r)[n] == Keys(m)[n] {
          if n != IndexOfKey(m, k) { assert r[n] == m[n]; }
        }
      }
    } else {
      assert Keys(r) == Keys(m) + [k] by {
        forall n | 0 <= n < |m| ensures Keys(r)[n] == Keys(m)[n] {
          assert r[n] == m[n];
        }
      }
    }
  }

  /** The size grows by one exactly when the key is new. */
  lemma UpsertSize<K, V>(m: seq<(K, V)>, k: K, v: V)
    ensures |Upsert(m, k, v)| == if HasKey(m, k) then |m| else |m| + 1
  {
  }

  /** An upsert keeps the keys distinct. */
  lemma UpsertDistinct<K, V>(m: seq<(K, V)>, k: K, v: V)
    requires KeysDistinct(m)
    ensures KeysDistinct(Upsert(m, k, v))
  {
    var r := Upsert(m, k, v);
    UpsertKeys(m, k, v);
    forall a, b | 0 <= a < b < |r| ensures r[a].0 != r[b].0 {
      assert Keys(r)[a] == r[a].0 && Keys(r)[b] == r[b].0;
      if b < |m| {
        assert Keys(m)[a] == m[a].0 && Keys(m)[b] == m[b].0;
      } else {
        assert m[a].0 == Keys(m)[a];
      }
    }
  }

  /** A run of upserts, applied first to last. */
  function UpsertAll<K(==), V>(m: seq<(K, V)>, kvs: seq<(K, V)>): seq<(K, V)>
    decreases |kvs|
  {
    if |kvs| == 0 then m
    else
      var last := kvs[|kvs| - 1];
      Upsert(UpsertAll(m, kvs[..|kvs| - 1]), last.0, last.1)
  }

  /** One more upsert at the end of a run. */
  lemma UpsertAllSnoc<K, V>(m: seq<(K, V)>, kvs: seq<(K, V)>, kv: (K, V))
    ensures UpsertAll(m, kvs + [kv]) == Upsert(UpsertAll(m, kvs), kv.0, kv.1)
  {
    assert (kvs + [kv])[..|kvs|] == kvs;
  }

  /** `kvs[j]` is the last entry for its key. */
  predicate LastFor<K(==), V>(kvs: seq<(K, V)>, j: int) {
    0 <= j < |kvs| && forall n :: j < n < |kvs| ==> kvs[n].0 != kvs[j].0
  }

  /** A key no upsert of the run touches keeps its value. */
  lemma {:induction false} UpsertAllUntouched<K, V>(m: seq<(K, V)>, kvs: seq<(K, V)>, k: K)
    requires forall j :: 0 <= j < |kvs| ==> kvs[j].0 != k
    ensures Lookup(UpsertAll(m, kvs), k) == Lookup(m, k)
    decreases |kvs|
  {
    if |kvs| > 0 {
      var init := kvs[..|kvs| - 1];
      var last := kvs[|kvs| - 1];
      assert forall j :: 0 <= j < |init| ==> init[j] == kvs[j];
      UpsertAllUntouched(m, init, k);
      UpsertOther(UpsertAll(m, init), last.0, last.1, k);
    }
  }

  /** The last upsert of a key in the run decides its value. */
  lemma {:induction false} UpsertAllLast<K, V>(m: seq<(K, V)>, kvs: seq<(K, V)>, j: int)
    requires LastFor(kvs, j)
    ensures Lookup(UpsertAll(m, kvs), kvs[j].0) == Some(kvs[j].1)
    decreases |kvs|
  {
    var init := kvs[..|kvs| - 1];
    var last := kvs[|kvs| - 1];
    if j == |kvs| - 1 {
      UpsertFound(UpsertAll(m, init), last.0, last.1);
    } else {
      assert init[j] == kvs[j];
      assert forall n :: j < n < |init| ==> init[n] == kvs[n];
      UpsertAllLast(m, init, j);
      UpsertOther(UpsertAll(m, init), last.0, last.1, kvs[j].0);
    }
  }

  /** After a run of upserts a key holds the value of its last upsert; a key not upserted keeps its value. */
  lemma UpsertAllLookup<K, V>(m: seq<(K, V)>, kvs: seq<(K, V)>, k: K)
    ensures (forall j :: 0 <= j < |kvs| ==> kvs[j].0 != k) ==> Lookup(UpsertAll(m, kvs), k) == Lookup(m, k)
    ensures forall j :: LastFor(kvs, j) && kvs[j].0 == k ==> Lookup(UpsertAll(m, kvs), k) == Some(kvs[j].1)
  {
    if forall j :: 0 <= j < |kvs| ==> kvs[j].0 != k {
      UpsertAllUntouched(m, kvs, k);
    }
    forall j | LastFor(kvs, j) && kvs[j].0 == k
      ensures Lookup(UpsertAll(m, kvs), k) == Some(kvs[j].1)
    {
      UpsertAllLast(m, kvs, j);
    }
  }

  /** A run of upserts keeps the keys distinct. */
  lemma {:induction false} UpsertAllDistinct<K, V>(m: seq<(K, V)>, kvs: seq<(K, V)>)
    requires KeysDistinct(m)
    ensures KeysDistinct(UpsertAll(m, kvs))
    decreases |kvs|
  {
    if |kvs| > 0 {
      UpsertAllDistinct(m, kvs[..|kvs| - 1]);
      UpsertDistinct(UpsertAll(m, kvs[..|kvs| - 1]), kvs[|kvs| - 1].0, kvs[|kvs| - 1].1);
    }
  }
}
