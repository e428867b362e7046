/** Folds over sequences in the order the service's `for` loops visit them:
    every function here recurses on the prefix and handles the last element
    last, as a loop body would. */
module Seqs {

  /** The sum of `f` over `s`. */
  function Sum<T>(s: seq<T>, f: T -> int): int
    decreases |s|
  {
    if |s| == 0 then 0 else Sum(s[..|s| - 1], f) + f(s[|s| - 1])
  }

  /** The sum of a real-valued `f` over `s`. */
  function SumReal<T>(s: seq<T>, f: T -> real): real
    decreases |s|
  {
    if |s| == 0 then 0.0 else SumReal(s[..|s| - 1], f) + f(s[|s| - 1])
  }

  /** The elements of `s` satisfying `p`, in their original order. */
  function Filter<T(!new)>(s: seq<T>, p: T -> bool): (r: seq<T>)
    ensures |r| <= |s|
    ensures forall x :: x in r <==> x in s && p(x)
    decreases |s|
  {
    if |s| == 0 then []
    else
      var pre := Filter(s[..|s| - 1], p);
      assert forall x :: x in s <==> x in s[..|s| - 1] || x == s[|s| - 1];
      if p(s[|s| - 1]) then pre + [s[|s| - 1]] else pre
  }

  /** Number of times `x` occurs in `s`. */
  function Occurrences<T(==,!new)>(x: T, s: seq<T>): (n: nat)
    ensures n == 0 <==> x !in s
    decreases |s|
  {
    if |s| == 0 then 0
    else
      assert forall y :: y in s <==> y in s[..|s| - 1] || y == s[|s| - 1];
      Occurrences(x, s[..|s| - 1]) + (if s[|s| - 1] == x then 1 else 0)
  }

  /** Every element of `s` is different from every other. */
  predicate Distinct<T(==)>(s: seq<T>) {
    forall i, j :: 0 <= i < j < |s| ==> s[i] != s[j]
  }

  lemma {:induction false} SumAppend<T>(a: seq<T>, b: seq<T>, f: T -> int)
    ensures Sum(a + b, f) == Sum(a, f) + Sum(b, f)
    decreases |b|
  {
    if |b| == 0 {
      assert a + b == a;
    } else {
      assert (a + b)[..|a + b| - 1] == a + b[..|b| - 1];
      SumAppend(a, b[..|b| - 1], f);
    }
  }

  lemma {:induction false} FilterAppend<T(!new)>(a: seq<T>, b: seq<T>, p: T -> bool)
    ensures Filter(a + b, p) == Filter(a, p) + Filter(b, p)
    decreases |b|
  {
    if |b| == 0 {
      assert a + b == a;
    } else {
      assert (a + b)[..|a + b| - 1] == a + b[..|b| - 1];
      FilterAppend(a, b[..|b| - 1], p);
    }
  }

  lemma {:induction false} OccurrencesAppend<T(!new)>(x: T, a: seq<T>, b: seq<T>)
    ensures Occurrences(x, a + b) == Occurrences(x, a) + Occurrences(x, b)
    decreases |b|
  {
    if |b| == 0 {
      assert a + b == a;
    } else {
      assert (a + b)[..|a + b| - 1] == a + b[..|b| - 1];
      OccurrencesAppend(x, a, b[..|b| - 1]);
    }
  }

  /** Elements of `s` split into those that satisfy `p` and those that do not. */
  lemma {:induction false} FilterPartition<T(!new)>(s: seq<T>, p: T -> bool)
    ensures |Filter(s, p)| + |Filter(s, x => !p(x))| == |s|
    decreases |s|
  {
    if |s| > 0 {
      FilterPartition(s[..|s| - 1], p);
    }
  }

  /** A non-empty sequence is its prefix followed by its last element. */
  lemma Snoc<T>(s: seq<T>)
    requires |s| > 0
    ensures s == s[..|s| - 1] + [s[|s| - 1]]
  {
  }

  /** The sum of a sequence of integers. */
  function SumInts(s: seq<int>): int
    decreases |s|
  {
    if |s| == 0 then 0 else SumInts(s[..|s| - 1]) + s[|s| - 1]
  }

  /** Adding `d` to one entry adds `d` to the sum. */
  lemma {:induction false} SumIntsUpdate(s: seq<int>, i: nat, d: int)
    requires i < |s|
    ensures SumInts(s[i := s[i] + d]) == SumInts(s) + d
    decreases |s|
  {
    var t := s[i := s[i] + d];
    assert t[..|t| - 1] == if i < |s| - 1 then s[..|s| - 1][i := s[i] + d] else s[..|s| - 1];
    if i < |s| - 1 {
      SumIntsUpdate(s[..|s| - 1], i, d);
    }
  }

  /** A sequence of zeros sums to zero. */
  lemma {:induction false} SumIntsZeros(n: nat)
    ensures SumInts(seq(n, _ => 0)) == 0
    decreases n
  {
    if n > 0 {
      assert seq(n, _ => 0)[..n - 1] == seq(n - 1, _ => 0);
      SumIntsZeros(n - 1);
    }
  }

  /** How many elements of `s` (with repetitions) are not in `present`. */
  function CountMissing<T(!new)>(s: seq<T>, present: set<T>): (n: nat)
    ensures n <= |s|
    ensures n == 0 <==> forall i :: 0 <= i < |s| ==> s[i] in present
  {
    var r := Filter(s, x => x !in present);
    assert forall i :: 0 <= i < |s| && s[i] !in present ==> s[i] in r;
    assert |r| > 0 ==> r[0] in s && r[0] !in present;
    |r|
  }

  /** Appending `x` adds one to the count exactly when `x` is not present. */
  lemma CountMissingSnoc<T(!new)>(s: seq<T>, x: T, present: set<T>)
    ensures CountMissing(s + [x], present) == CountMissing(s, present) + (if x in present then 0 else 1)
  {
    var p := y => y !in present;
    FilterAppend(s, [x], p);
    assert [x][..0] == [];
    assert Filter(s + [x], p) == Filter(s, p) + Filter([x], p);
  }
}
