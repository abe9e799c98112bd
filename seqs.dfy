/** `Array.prototype.filter` and the facts about it the model relies on. */
module Seqs {

  /** The elements of `s` that `keep` accepts, in their original order. */
  function Filter<T>(s: seq<T>, keep: T -> bool): (r: seq<T>)
    ensures |r| <= |s|
    ensures forall i :: 0 <= i < |r| ==> keep(r[i]) && r[i] in s
    ensures forall i :: 0 <= i < |s| && keep(s[i]) ==> s[i] in r
  {
    if s == [] then []
    else
      var rest := Filter(s[1..], keep);
      assert forall i :: 1 <= i < |s| ==> s[i] == s[1..][i - 1];
      (if keep(s[0]) then [s[0]] else []) + rest
  }

  /** One step of the filter: the first element is kept or dropped, then the rest is filtered. */
  lemma FilterCons<T>(s: seq<T>, keep: T -> bool)
    requires s != []
    ensures keep(s[0]) ==> Filter(s, keep) == [s[0]] + Filter(s[1..], keep)
    ensures !keep(s[0]) ==> Filter(s, keep) == Filter(s[1..], keep)
  {
  }

  lemma {:induction false} FilterConcat<T>(a: seq<T>, b: seq<T>, keep: T -> bool)
    ensures Filter(a + b, keep) == Filter(a, keep) + Filter(b, keep)
  {
    if a != [] {
      assert (a + b)[1..] == a[1..] + b;
      assert (a + b)[0] == a[0];
      FilterConcat(a[1..], b, keep);
      var head: seq<T> := if keep(a[0]) then [a[0]] else [];
      assert Filter(a + b, keep) == head + Filter(a[1..] + b, keep);
      assert Filter(a, keep) == head + Filter(a[1..], keep);
    } else {
      assert a + b == b;
    }
  }

  /** Filtering keeps everything when `keep` accepts every element. */
  lemma {:induction false} FilterAll<T>(s: seq<T>, keep: T -> bool)
    requires forall i :: 0 <= i < |s| ==> keep(s[i])
    ensures Filter(s, keep) == s
  {
    if s != [] {
      FilterAll(s[1..], keep);
    }
  }

  /** Filtering keeps nothing when `keep` rejects every element. */
  lemma {:induction false} FilterNone<T>(s: seq<T>, keep: T -> bool)
    requires forall i :: 0 <= i < |s| ==> !keep(s[i])
    ensures Filter(s, keep) == []
  {
    if s != [] {
      FilterNone(s[1..], keep);
    }
  }

  /** A relation that holds between every two kept elements, in order, holds along the result. */
  lemma {:induction false} FilterPairwise<T>(s: seq<T>, keep: T -> bool, rel: (T, T) -> bool)
    requires forall i, j :: 0 <= i < j < |s| && keep(s[i]) && keep(s[j]) ==> rel(s[i], s[j])
    ensures forall i, j :: 0 <= i < j < |Filter(s, keep)| ==> rel(Filter(s, keep)[i], Filter(s, keep)[j])
  {
    if s != [] {
      var tail := s[1..];
      forall i, j | 0 <= i < j < |tail| && keep(tail[i]) && keep(tail[j]) ensures rel(tail[i], tail[j]) {
        assert tail[i] == s[i + 1] && tail[j] == s[j + 1];
      }
      FilterPairwise(tail, keep, rel);
      var rest := Filter(tail, keep);
      if !keep(s[0]) {
        assert Filter(s, keep) == rest;
      } else {
        HeadRelatesToKept(s, keep, rel);
        ConsPairwise(s[0], rest, rel);
        assert Filter(s, keep) == [s[0]] + rest;
      }
    }
  }

  /** Putting in front an element related to all of a related sequence keeps it related. */
  lemma ConsPairwise<T>(x: T, rest: seq<T>, rel: (T, T) -> bool)
    requires forall y :: y in rest ==> rel(x, y)
    requires forall i, j :: 0 <= i < j < |rest| ==> rel(rest[i], rest[j])
    ensures forall i, j :: 0 <= i < j < |[x] + rest| ==> rel(([x] + rest)[i], ([x] + rest)[j])
  {
    var r := [x] + rest;
    forall i, j | 0 <= i < j < |r| ensures rel(r[i], r[j]) {
      assert r[j] == rest[j - 1];
      if i != 0 {
        assert r[i] == rest[i - 1];
      }
    }
  }

  /** A kept first element is related to every element the filter keeps from the rest. */
  lemma HeadRelatesToKept<T>(s: seq<T>, keep: T -> bool, rel: (T, T) -> bool)
    requires s != [] && keep(s[0])
    requires forall i, j :: 0 <= i < j < |s| && keep(s[i]) && keep(s[j]) ==> rel(s[i], s[j])
    ensures forall x :: x in Filter(s[1..], keep) ==> rel(s[0], x)
  {
    var tail := s[1..];
    forall x | x in Filter(tail, keep) ensures rel(s[0], x) {
      var k :| 0 <= k < |tail| && tail[k] == x;
      assert s[k + 1] == x;
    }
  }

  /** Filtering by `outer` after `inner` is filtering by `outer` alone when every element `outer` keeps, `inner` keeps too. */
  lemma {:induction false} FilterFilter<T>(s: seq<T>, inner: T -> bool, outer: T -> bool)
    requires forall i :: 0 <= i < |s| && outer(s[i]) ==> inner(s[i])
    ensures Filter(Filter(s, inner), outer) == Filter(s, outer)
  {
    if s != [] {
      assert forall i :: 1 <= i < |s| ==> s[i] == s[1..][i - 1];
      FilterFilter(s[1..], inner, outer);
      var rest := Filter(s[1..], inner);
      var head: seq<T> := if outer(s[0]) then [s[0]] else [];
      assert Filter(s, outer) == head + Filter(s[1..], outer);
      if inner(s[0]) {
        var mid := [s[0]] + rest;
        assert Filter(s, inner) == mid;
        assert mid[1..] == rest && mid[0] == s[0];
        assert Filter(mid, outer) == head + Filter(rest, outer);
      } else {
        assert Filter(s, inner) == rest;
        assert head == [];
        assert Filter(s, outer) == Filter(s[1..], outer);
      }
    }
  }

  /** No two elements of `s` share a key. */
  predicate DistinctBy<T, K(==)>(s: seq<T>, key: T -> K) {
    forall i, j :: 0 <= i < j < |s| ==> key(s[i]) != key(s[j])
  }

  /** When keys are distinct, every element occurs at most once. */
  lemma {:induction false} DistinctByCount<T, K>(s: seq<T>, key: T -> K, x: T)
    requires DistinctBy(s, key)
    ensures multiset(s)[x] <= 1
  {
    if s != [] {
      var tail := s[1..];
      assert s == [s[0]] + tail;
      assert DistinctBy(tail, key) by {
        forall i, j | 0 <= i < j < |tail| ensures key(tail[i]) != key(tail[j]) {
          assert tail[i] == s[i + 1] && tail[j] == s[j + 1];
        }
      }
      DistinctByCount(tail, key, x);
      if x == s[0] {
        assert x !in tail by {
          forall i | 0 <= i < |tail| ensures tail[i] != x {
            assert tail[i] == s[i + 1];
          }
        }
      }
    }
  }

  /** A reordering of a sequence with distinct keys has distinct keys. */
  lemma DistinctByPermutation<T, K>(a: seq<T>, b: seq<T>, key: T -> K)
    requires DistinctBy(a, key) && multiset(a) == multiset(b)
    ensures DistinctBy(b, key)
  {
    forall i, j | 0 <= i < j < |b| ensures key(b[i]) != key(b[j]) {
      if key(b[i]) == key(b[j]) {
        assert b[i] in multiset(a) && b[j] in multiset(a);
        var ia :| 0 <= ia < |a| && a[ia] == b[i];
        var ja :| 0 <= ja < |a| && a[ja] == b[j];
        assert ia == ja;
        assert b == b[..j] + b[j..];
        assert b[i] in b[..j];
        assert b[j] in b[j..];
        assert multiset(b)[b[i]] == multiset(b[..j])[b[i]] + multiset(b[j..])[b[i]];
        DistinctByCount(a, key, b[i]);
      }
    }
  }
}
