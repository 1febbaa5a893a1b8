/** Facts about sequences and slices of arrays. */
module Sequences {

  lemma Associative<T>(a: seq<T>, b: seq<T>, c: seq<T>)
    ensures (a + b) + c == a + (b + c)
  {
  }

  /** A part of a slice of an array is a slice of the array. */
  lemma SubSlice<T>(a: array<T>, lo: nat, n: nat, p: nat, q: nat)
    requires p <= q <= n && lo + n <= a.Length
    ensures a[lo..lo + n][p..q] == a[lo + p..lo + q]
  {
    var s := a[lo..lo + n];
    assert forall k :: 0 <= k < q - p ==> s[p..q][k] == a[lo + p..lo + q][k];
  }
}
