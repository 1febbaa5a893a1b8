/** Cardinalities of finite sets. */
module FiniteSets {

  lemma {:induction false} SlotsBelow(n: nat) returns (s: set<nat>)
    ensures |s| == n && forall p: nat :: p in s <==> p < n
  {
    if n == 0 {
      s := {};
    } else {
      s := SlotsBelow(n - 1);
      s := s + {n - 1};
    }
  }

  lemma {:induction false} SubsetCard<T>(s: set<T>, t: set<T>)
    requires s <= t
    ensures |s| <= |t| && (|s| == |t| ==> s == t)
  {
    if s != {} {
      var x :| x in s;
      SubsetCard(s - {x}, t - {x});
    }
  }

  /** Pairing every element with the same number keeps the cardinality. */
  lemma {:induction false} TaggedCard(p: nat, s: set<nat>)
    ensures |set k: nat | k in s :: (p, k)| == |s|
  {
    var tagged := set k: nat | k in s :: (p, k);
    if s == {} {
      assert tagged == {};
    } else {
      var x :| x in s;
      TaggedCard(p, s - {x});
      var fewer := set k: nat | k in s - {x} :: (p, k);
      assert tagged == fewer + {(p, x)} && (p, x) !in fewer;
    }
  }
}
