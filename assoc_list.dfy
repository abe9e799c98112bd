/**
 * Insertion-ordered key/value lists: the model of a JavaScript object used as a
 * dictionary (`{ ...prev, [k]: v }`, `obj[k] = v`) and of a JavaScript `Map`.
 */
module AssocList {
  import opened Wrappers
  import Seqs

  predicate DistinctKeys<K(==), V>(m: seq<(K, V)>) {
    forall i, j :: 0 <= i < j < |m| ==> m[i].0 != m[j].0
  }

  predicate HasKey<K(==), V>(m: seq<(K, V)>, k: K) {
    exists i :: 0 <= i < |m| && m[i].0 == k
  }

  /** `m[k]`: the value of the first entry with key `k`, `None` when there is none. */
  function Lookup<K(==), V>(m: seq<(K, V)>, k: K): (r: Option<V>)
    ensures r.Some? <==> HasKey(m, k)
    ensures r.Some? ==> (k, r.value) in m
  {
    if m == [] then None
    else if m[0].0 == k then Some(m[0].1)
    else
      var r := Lookup(m[1..], k);
      assert HasKey(m[1..], k) ==> HasKey(m, k) by {
        if HasKey(m[1..], k) {
          var i :| 0 <= i < |m[1..]| && m[1..][i].0 == k;
          assert m[i + 1].0 == k;
        }
      }
      r
  }

  /** `m[k] = v`: an existing key keeps its position and takes the new value; a new key is appended. */
  function Put<K(==), V>(m: seq<(K, V)>, k: K, v: V): (r: seq<(K, V)>)
    ensures HasKey(m, k) ==> |r| == |m|
    ensures !HasKey(m, k) ==> r == m + [(k, v)]
  {
    if m == [] then [(k, v)]
    else if m[0].0 == k then [(k, v)] + m[1..]
    else
      var rest := Put(m[1..], k, v);
      assert HasKey(m, k) ==> HasKey(m[1..], k) by {
        if HasKey(m, k) {
          var i :| 0 <= i < |m| && m[i].0 == k;
          assert m[1..][i - 1].0 == k;
        }
      }
      [m[0]] + rest
  }

  /** After `m[k] = v`, key `k` reads `v` and every other key reads what it read before. */
  lemma {:induction false} LookupPut<K, V>(m: seq<(K, V)>, k: K, v: V, j: K)
    ensures Lookup(Put(m, k, v), j) == if j == k then Some(v) else Lookup(m, j)
  {
    if m != [] && m[0].0 != k {
      LookupPut(m[1..], k, v, j);
      assert Put(m, k, v)[1..] == Put(m[1..], k, v);
    }
  }

  /** The lookup of every key after `m[k] = v`. */
  lemma LookupPutAll<K(!new), V>(m: seq<(K, V)>, k: K, v: V)
    ensures forall j :: Lookup(Put(m, k, v), j) == if j == k then Some(v) else Lookup(m, j)
  {
    forall j ensures Lookup(Put(m, k, v), j) == if j == k then Some(v) else Lookup(m, j) {
      LookupPut(m, k, v, j);
    }
  }

  /** `m[k] = (m[k] || 0) + d`: key `k` reads `d` more than before, every other key what it read before. */
  function AddTo<K(==, !new)>(m: seq<(K, int)>, k: K, d: int): (r: seq<(K, int)>)
    ensures forall j :: Lookup(r, j).GetOr(0) == Lookup(m, j).GetOr(0) + (if k == j then d else 0)
  {
    var v := Lookup(m, k).GetOr(0) + d;
    LookupPutAll(m, k, v);
    Put(m, k, v)
  }

  /** `m[k] = (m[k] || 0) + d` keeps the keys distinct. */
  lemma AddToDistinct<K(!new)>(m: seq<(K, int)>, k: K, d: int)
    requires DistinctKeys(m)
    ensures DistinctKeys(AddTo(m, k, d))
  {
    PutDistinct(m, k, Lookup(m, k).GetOr(0) + d);
  }

  /** On distinct keys, `m[k] = (m[k] || 0) + d` adds `d` to the sum of the values. */
  lemma AddToSum<K(!new)>(m: seq<(K, int)>, k: K, d: int)
    requires DistinctKeys(m)
    ensures Sum(AddTo(m, k, d)) == Sum(m) + d
  {
    var v := Lookup(m, k).GetOr(0) + d;
    assert AddTo(m, k, d) == Put(m, k, v);
    SumPut(m, k, v);
  }

  /** `m[k] = v` never creates a second entry for a key. */
  lemma {:induction false} PutDistinct<K, V>(m: seq<(K, V)>, k: K, v: V)
    requires DistinctKeys(m)
    ensures DistinctKeys(Put(m, k, v))
  {
    if m != [] && m[0].0 != k {
      var rest := Put(m[1..], k, v);
      var r := Put(m, k, v);
      assert DistinctKeys(m[1..]) by {
        forall i, j | 0 <= i < j < |m[1..]| ensures m[1..][i].0 != m[1..][j].0 {
          assert m[1..][i] == m[i + 1] && m[1..][j] == m[j + 1];
        }
      }
      PutDistinct(m[1..], k, v);
      assert r == [m[0]] + rest;
      forall j | 0 < j < |r| ensures r[0].0 != r[j].0 {
        var key := r[j].0;
        assert rest[j - 1].0 == key;
        assert HasKey(rest, key);
        LookupPut(m[1..], k, v, key);
        if key != k {
          var i :| 0 <= i < |m[1..]| && m[1..][i].0 == key;
          assert m[i + 1].0 == key;
        }
      }
    }
  }

  /** Every entry of `m[k] = v` is the new entry or an entry of `m`. */
  lemma {:induction false} PutEntries<K, V>(m: seq<(K, V)>, k: K, v: V)
    ensures forall i :: 0 <= i < |Put(m, k, v)| ==> Put(m, k, v)[i] == (k, v) || Put(m, k, v)[i] in m
  {
    if m != [] && m[0].0 != k {
      PutEntries(m[1..], k, v);
      var r := Put(m, k, v);
      assert r == [m[0]] + Put(m[1..], k, v);
      forall i | 0 <= i < |r| ensures r[i] == (k, v) || r[i] in m {
        if i > 0 {
          assert r[i] == Put(m[1..], k, v)[i - 1];
        }
      }
    }
  }

  function KeyOf<K, V>(e: (K, V)): K {
    e.0
  }

  /** A reordering of a list with distinct keys has distinct keys. */
  lemma DistinctKeysPermutation<K, V>(a: seq<(K, V)>, b: seq<(K, V)>)
    requires DistinctKeys(a) && multiset(a) == multiset(b)
    ensures DistinctKeys(b)
  {
    assert Seqs.DistinctBy(a, KeyOf);
    Seqs.DistinctByPermutation(a, b, KeyOf);
    assert forall i :: 0 <= i < |b| ==> KeyOf(b[i]) == b[i].0;
  }

  /** With distinct keys, an entry of the list is what its key reads. */
  lemma {:induction false} LookupDistinct<K, V>(m: seq<(K, V)>, k: K, v: V)
    requires DistinctKeys(m) && (k, v) in m
    ensures Lookup(m, k) == Some(v)
  {
    var i :| 0 <= i < |m| && m[i] == (k, v);
    if i > 0 && m[0].0 != k {
      var tail := m[1..];
      assert tail[i - 1] == m[i];
      assert DistinctKeys(tail) by {
        forall a, b | 0 <= a < b < |tail| ensures tail[a].0 != tail[b].0 {
          assert tail[a] == m[a + 1] && tail[b] == m[b + 1];
        }
      }
      LookupDistinct(tail, k, v);
    }
  }

  /** Reordering a list with distinct keys changes no lookup. */
  lemma LookupPermutation<K, V>(a: seq<(K, V)>, b: seq<(K, V)>, k: K)
    requires DistinctKeys(a) && multiset(a) == multiset(b)
    ensures Lookup(a, k) == Lookup(b, k)
  {
    DistinctKeysPermutation(a, b);
    var la := Lookup(a, k);
    assert HasKey(b, k) ==> HasKey(a, k) by {
      if HasKey(b, k) {
        var i :| 0 <= i < |b| && b[i].0 == k;
        assert b[i] in multiset(a);
      }
    }
    if la.Some? {
      assert (k, la.value) in multiset(b);
      LookupDistinct(b, k, la.value);
    }
  }

  /** The sum of the values, in order (`Object.values(m).reduce((s, q) => s + q, 0)`). */
  function Sum<K>(m: seq<(K, int)>): int {
    if m == [] then 0 else m[0].1 + Sum(m[1..])
  }

  lemma {:induction false} SumConcat<K>(a: seq<(K, int)>, b: seq<(K, int)>)
    ensures Sum(a + b) == Sum(a) + Sum(b)
  {
    if a == [] {
      assert a + b == b;
    } else {
      assert (a + b)[1..] == a[1..] + b;
      SumConcat(a[1..], b);
    }
  }

  /** Taking out the entry at `k` takes one occurrence of it out of the multiset. */
  lemma RemoveAtMultiset<T>(b: seq<T>, k: int)
    requires 0 <= k < |b|
    ensures multiset(b[..k] + b[k + 1..]) == multiset(b) - multiset{b[k]}
  {
    assert b == b[..k] + [b[k]] + b[k + 1..];
  }

  /** The sum is the entry at `k` plus the sum of the others. */
  lemma SumRemoveAt<K>(b: seq<(K, int)>, k: int)
    requires 0 <= k < |b|
    ensures Sum(b) == b[k].1 + Sum(b[..k] + b[k + 1..])
  {
    var before, at, after := b[..k], [b[k]], b[k + 1..];
    assert b == (before + at) + after;
    SumConcat(before + at, after);
    SumConcat(before, at);
    SumConcat(before, after);
    assert Sum(at) == b[k].1 + Sum(at[1..]);
  }

  /** The sum does not depend on the order of the entries. */
  lemma {:induction false} SumPermutation<K>(a: seq<(K, int)>, b: seq<(K, int)>)
    requires multiset(a) == multiset(b)
    ensures Sum(a) == Sum(b)
    decreases |a|
  {
    if a == [] {
      assert |b| == |multiset(b)| == 0;
    } else {
      assert a[0] in multiset(b);
      var k :| 0 <= k < |b| && b[k] == a[0];
      var rest := b[..k] + b[k + 1..];
      RemoveAtMultiset(b, k);
      assert a == [a[0]] + a[1..];
      assert multiset(a[1..]) == multiset(a) - multiset{a[0]};
      SumPermutation(a[1..], rest);
      SumRemoveAt(b, k);
    }
  }

  predicate NonNegative<K>(m: seq<(K, int)>) {
    forall i :: 0 <= i < |m| ==> m[i].1 >= 0
  }

  lemma {:induction false} SumNonNegative<K>(m: seq<(K, int)>)
    requires NonNegative(m)
    ensures Sum(m) >= 0
  {
    if m != [] {
      assert NonNegative(m[1..]) by {
        forall i | 0 <= i < |m[1..]| ensures m[1..][i].1 >= 0 { assert m[1..][i] == m[i + 1]; }
      }
      SumNonNegative(m[1..]);
    }
  }

  /** Writing `v` at key `k` changes the sum by `v` minus the value it replaces. */
  lemma {:induction false} SumPut<K>(m: seq<(K, int)>, k: K, v: int)
    requires DistinctKeys(m)
    ensures Sum(Put(m, k, v)) == Sum(m) - Lookup(m, k).GetOr(0) + v
  {
    if m == [] {
    } else if m[0].0 == k {
      assert Put(m, k, v)[1..] == m[1..];
    } else {
      assert DistinctKeys(m[1..]) by {
        forall i, j | 0 <= i < j < |m[1..]| ensures m[1..][i].0 != m[1..][j].0 {
          assert m[1..][i] == m[i + 1] && m[1..][j] == m[j + 1];
        }
      }
      SumPut(m[1..], k, v);
      assert Put(m, k, v) == [m[0]] + Put(m[1..], k, v);
    }
  }

  /** Writing a non-negative value keeps every value non-negative. */
  lemma {:induction false} PutNonNegative<K>(m: seq<(K, int)>, k: K, v: int)
    requires NonNegative(m) && v >= 0
    ensures NonNegative(Put(m, k, v))
  {
    if m != [] && m[0].0 != k {
      assert NonNegative(m[1..]) by {
        forall i | 0 <= i < |m[1..]| ensures m[1..][i].1 >= 0 { assert m[1..][i] == m[i + 1]; }
      }
      PutNonNegative(m[1..], k, v);
      var r := Put(m, k, v);
      assert r[1..] == Put(m[1..], k, v);
      forall i | 0 <= i < |r| ensures r[i].1 >= 0 {
        if i > 0 { assert r[i] == r[1..][i - 1]; }
      }
    }
  }
}
