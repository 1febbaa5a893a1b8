/** Sums of sequences of numbers. */
module Sums {
  import opened FiniteSets

  function Sum(xs: seq<int>): int {
    if xs == [] then 0 else Sum(xs[..|xs| - 1]) + xs[|xs| - 1]
  }

  lemma {:induction false} SumUpdate(xs: seq<int>, i: nat, x: int)
    requires i < |xs|
    ensures Sum(xs[i := x]) == Sum(xs) - xs[i] + x
  {
    if i == |xs| - 1 {
      assert xs[i := x][..i] == xs[..i];
    } else {
      SumUpdate(xs[..|xs| - 1], i, x);
      assert xs[i := x][..|xs| - 1] == xs[..|xs| - 1][i := x];
    }
  }

  lemma {:induction false} SumNat(xs: seq<int>)
    requires forall i :: 0 <= i < |xs| ==> xs[i] >= 0
    ensures Sum(xs) >= 0
  {
    if xs != [] { SumNat(xs[..|xs| - 1]); }
  }

  /** Of a sum of natural numbers, no two terms exceed it. */
  lemma SumTwo(xs: seq<int>, i: nat, j: nat)
    requires forall k :: 0 <= k < |xs| ==> xs[k] >= 0
    requires i < |xs| && j < |xs| && i != j
    ensures xs[i] + xs[j] <= Sum(xs)
  {
    SumUpdate(xs, i, 0);
    SumUpdate(xs[i := 0], j, 0);
    SumNat(xs[i := 0][j := 0]);
  }

  lemma SumOne(xs: seq<int>, i: nat)
    requires (forall k :: 0 <= k < |xs| ==> xs[k] >= 0) && i < |xs|
    ensures xs[i] <= Sum(xs)
  {
    SumUpdate(xs, i, 0);
    SumNat(xs[i := 0]);
  }

  lemma {:induction false} SumZero(xs: seq<int>)
    requires forall i :: 0 <= i < |xs| ==> xs[i] == 0
    ensures Sum(xs) == 0
  {
    if xs != [] { SumZero(xs[..|xs| - 1]); }
  }

  /** The elements of all sets together, each with the number of its set. */
  ghost function Tagged(sets: seq<set<nat>>): set<(nat, nat)> {
    set p: nat, k: nat | p < |sets| && k in sets[p] :: (p, k)
  }

  /** Sums of cardinalities count the elements of all sets. */
  lemma {:induction false} SumOfCards(sets: seq<set<nat>>, xs: seq<int>)
    requires |xs| == |sets| && forall p :: 0 <= p < |xs| ==> xs[p] == |sets[p]|
    ensures Sum(xs) == |Tagged(sets)|
  {
    if xs == [] {
      assert Tagged(sets) == {};
    } else {
      var n := |xs| - 1;
      SumOfCards(sets[..n], xs[..n]);
      var last := set k: nat | k in sets[n] :: (n, k);
      TaggedCard(n, sets[n]);
      assert Tagged(sets) == Tagged(sets[..n]) + last;
      assert Tagged(sets[..n]) !! last;
    }
  }
}
