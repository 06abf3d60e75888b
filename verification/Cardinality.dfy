/** Counting the elements of finite sets. */
module Cardinality {

  lemma {:induction false} SubsetSize<T>(a: set<T>, b: set<T>)
    requires a <= b
    ensures |a| <= |b|
  {
    if a == {} {
    } else {
      var x :| x in a;
      SubsetSize(a - {x}, b - {x});
    }
  }

  lemma SameSizeSubset<T>(a: set<T>, b: set<T>)
    requires a <= b && |b| <= |a|
    ensures a == b
  {
    if x :| x in b && x !in a {
      SubsetSize(a, b - {x});
    }
  }

  lemma {:induction false} AtMostInRange(s: set<int>, lo: int, n: nat)
    requires forall i | i in s :: lo <= i < lo + n
    ensures |s| <= n
  {
    if n == 0 {
      assert forall i :: i !in s;
      assert s == {};
    } else {
      AtMostInRange(s - {lo + n - 1}, lo, n - 1);
    }
  }

  lemma {:induction false} AtLeastRange(s: set<int>, n: nat)
    requires forall k :: 0 <= k < n ==> k in s
    ensures |s| >= n
  {
    if n == 0 {
    } else {
      AtLeastRange(s - {n - 1}, n - 1);
    }
  }

  /** A set that is exactly a range has as many elements as the range is long. */
  lemma {:induction false} ExactRange(s: set<int>, lo: int, n: nat)
    requires forall i :: i in s <==> lo <= i < lo + n
    ensures |s| == n
    decreases n
  {
    if n == 0 {
      assert forall i :: i !in s;
      assert s == {};
    } else {
      ExactRange(s - {lo + n - 1}, lo, n - 1);
    }
  }
}
