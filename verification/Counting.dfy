/** Counting arguments on sequences and sets of natural numbers. */
module Counting {

  ghost predicate Distinct<T>(s: seq<T>) {
    forall i, j :: 0 <= i < j < |s| ==> s[i] != s[j]
  }

  ghost function Elements<T>(s: seq<T>): set<T> {
    set x | x in s
  }

  // Always true: gives quantifiers over numbers something to be instantiated by.
  ghost predicate IsNat(x: nat) { true }

  ghost function Below(n: nat): set<nat> {
    set x: nat {:trigger IsNat(x)} | x < n && IsNat(x)
  }

  lemma {:induction false} BelowSize(n: nat)
    ensures |Below(n)| == n
  {
    if n == 0 {
      assert Below(0) == {};
    } else {
      BelowSize(n - 1);
      assert Below(n) == Below(n - 1) + {n - 1};
    }
  }

  lemma {:induction false} DistinctSize<T>(s: seq<T>)
    requires Distinct(s)
    ensures |Elements(s)| == |s|
  {
    if s != [] {
      var t := s[..|s| - 1];
      DistinctSize(t);
      assert Elements(s) == Elements(t) + {s[|s| - 1]};
    }
  }

  lemma {:induction false} SubsetSize<T>(a: set<T>, b: set<T>)
    requires a <= b
    ensures |a| <= |b|
    ensures |a| == |b| ==> a == b
  {
    assert b == a + (b - a);
  }

  /** Distinct values below `n` number at most `n`, and exactly `n` of them are all values below `n`. */
  lemma {:induction false} Pigeonhole(s: seq<nat>, n: nat)
    requires Distinct(s) && forall x :: x in s ==> x < n
    ensures |s| <= n
    ensures |s| == n ==> forall x: nat :: x < n ==> x in s
  {
    DistinctSize(s);
    BelowSize(n);
    SubsetSize(Elements(s), Below(n));
    if |s| == n {
      forall x: nat | x < n
        ensures x in s
      {
        assert x in Below(n);
        assert x in Elements(s);
      }
    }
  }

  /** A distinct sequence below `n` that misses a value has room for it. */
  lemma {:induction false} PigeonholeMissing(s: seq<nat>, n: nat, x: nat)
    requires Distinct(s) && (forall y :: y in s ==> y < n) && x < n && x !in s
    ensures |s| < n
  {
    Pigeonhole(s, n);
  }

  /** A distinct sequence that holds exactly the values below `n` has length `n`. */
  lemma {:induction false} FullLength(s: seq<nat>, n: nat)
    requires Distinct(s) && forall x: nat :: x in s <==> x < n
    ensures |s| == n
  {
    DistinctSize(s);
    BelowSize(n);
    assert Elements(s) == Below(n);
  }
}
