/** Sorting by a key, descending, and taking the first k: the two top-ten lists of the
    aggregation. The sort is an insertion sort that places an element after every
    element whose key is at least as large, so equal keys keep their input order,
    as Java's `List.sort` does. */
module Ranking {

  /** Keys never increase along `s`. */
  predicate SortedDesc<T>(s: seq<T>, key: T -> real) {
    forall i, j :: 0 <= i < j < |s| ==> key(s[i]) >= key(s[j])
  }

  /** How many leading elements of the descending `s` have a key of at least `key(x)`:
      the position at which `x` goes. */
  function Position<T>(x: T, s: seq<T>, key: T -> real): (p: nat)
    requires SortedDesc(s, key)
    ensures p <= |s|
    ensures forall i :: 0 <= i < p ==> key(s[i]) >= key(x)
    ensures forall i :: p <= i < |s| ==> key(s[i]) < key(x)
    decreases |s|
  {
    if |s| == 0 || key(s[0]) < key(x) then 0
    else 1 + Position(x, s[1..], key)
  }

  /** `x` placed into the descending `s` after every element with a key of at least its own. */
  function Insert<T>(x: T, s: seq<T>, key: T -> real): (r: seq<T>)
    requires SortedDesc(s, key)
    ensures SortedDesc(r, key)
    ensures multiset(r) == multiset(s) + multiset{x}
    ensures |r| == |s| + 1
  {
    var p := Position(x, s, key);
    InsertKeepsOrder(x, s, p, key);
    assert s == s[..p] + s[p..];
    s[..p] + [x] + s[p..]
  }

  lemma InsertKeepsOrder<T>(x: T, s: seq<T>, p: nat, key: T -> real)
    requires SortedDesc(s, key) && p <= |s|
    requires forall i :: 0 <= i < p ==> key(s[i]) >= key(x)
    requires forall i :: p <= i < |s| ==> key(s[i]) < key(x)
    ensures SortedDesc(s[..p] + [x] + s[p..], key)
  {
    var r := s[..p] + [x] + s[p..];
    assert forall i :: 0 <= i < p ==> r[i] == s[i];
    assert forall i :: p < i < |r| ==> r[i] == s[i - 1];
  }

  /** `s` sorted by descending key. */
  function SortDesc<T>(s: seq<T>, key: T -> real): (r: seq<T>)
    ensures SortedDesc(r, key)
    ensures multiset(r) == multiset(s)
    ensures |r| == |s|
    decreases |s|
  {
    if |s| == 0 then []
    else
      assert s == s[..|s| - 1] + [s[|s| - 1]];
      Insert(s[|s| - 1], SortDesc(s[..|s| - 1], key), key)
  }

  function Min(a: int, b: int): int {
    if a <= b then a else b
  }

  /** The first `min(k, |s|)` elements of `s` sorted by descending key. */
  function TopK<T>(s: seq<T>, k: nat, key: T -> real): seq<T> {
    SortDesc(s, key)[..Min(k, |s|)]
  }

  /** In a descending sequence every element from position m on has a key no larger
      than any element before m. */
  lemma SortedSplit<T>(sorted: seq<T>, m: nat, key: T -> real)
    requires SortedDesc(sorted, key) && m <= |sorted|
    ensures forall x, i :: x in sorted[m..] && 0 <= i < m ==> key(x) <= key(sorted[i])
  {
    forall x, i | x in sorted[m..] && 0 <= i < m
      ensures key(x) <= key(sorted[i])
    {
      var j :| 0 <= j < |sorted[m..]| && sorted[m..][j] == x;
      assert sorted[m + j] == x;
    }
  }

  /** The first m elements of a descending permutation of s. */
  lemma PrefixOfSorted<T>(s: seq<T>, sorted: seq<T>, m: nat, key: T -> real)
    requires SortedDesc(sorted, key) && multiset(sorted) == multiset(s) && m <= |sorted|
    ensures SortedDesc(sorted[..m], key)
    ensures multiset(sorted[..m]) <= multiset(s)
    ensures forall x, i :: (x in multiset(s) - multiset(sorted[..m]) && 0 <= i < m
      ==> key(x) <= key(sorted[..m][i]))
  {
    var top, rest := sorted[..m], sorted[m..];
    assert sorted == top + rest;
    assert multiset(s) - multiset(top) == multiset(rest);
    SortedSplit(sorted, m, key);
    forall x, i | x in multiset(rest) && 0 <= i < m
      ensures key(x) <= key(top[i])
    {
      assert x in rest;
      assert top[i] == sorted[i];
    }
  }

  /** The top-k list has exactly min(k, n) entries, in non-increasing key order, all
      drawn from the input; no element left out has a larger key than any listed one. */
  lemma TopKSpec<T>(s: seq<T>, k: nat, key: T -> real)
    ensures |TopK(s, k, key)| == Min(k, |s|)
    ensures SortedDesc(TopK(s, k, key), key)
    ensures multiset(TopK(s, k, key)) <= multiset(s)
    ensures forall x, i :: (x in multiset(s) - multiset(TopK(s, k, key)) && 0 <= i < |TopK(s, k, key)|
      ==> key(x) <= key(TopK(s, k, key)[i]))
  {
    PrefixOfSorted(s, SortDesc(s, key), Min(k, |s|), key);
  }
}
