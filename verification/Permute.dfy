/** Flashsort's in-place permutation (the cycle-leader loop of posix/lib/fsort.c). */
module FlashPermutation {
  import opened Order
  import opened FiniteSets
  import opened FlashClasses

  /** The state of the permutation. Class c is filled from the top of its slots downwards: the slots l[c]..ll[c+1]
      hold elements of class c and form, over all classes, the set filled; the slots ll[c]..l[c] are still free. */
  ghost predicate Filling<T>(cls: T -> nat, v: seq<T>, ll: seq<nat>, l: seq<nat>, filled: set<nat>) {
    && Starts(cls, v, ll) && |l| == |ll| - 1
    && (forall c {:trigger l[c]} :: 0 <= c < |l| ==> ll[c] <= l[c] <= ll[c + 1])
    && (forall c, p: nat {:trigger l[c], p in filled} :: 0 <= c < |l| && ll[c] <= p < l[c] ==> p !in filled)
    && (forall c, p: nat {:trigger l[c], p in filled} :: 0 <= c < |l| && l[c] <= p < ll[c + 1] ==> p in filled)
    && (forall c, p: nat {:trigger l[c], v[p]} :: 0 <= c < |l| && l[c] <= p < ll[c + 1] && p < |v| ==> cls(v[p]) == c)
    && (forall p :: p in filled ==> p < |v|)
  }

  lemma FillingStart<T>(cls: T -> nat, v: seq<T>, ll: seq<nat>, l: seq<nat>)
    requires Starts(cls, v, ll) && |l| == |ll| - 1
    requires forall c :: 0 <= c < |l| ==> l[c] == ll[c + 1]
    ensures Filling(cls, v, ll, l, {})
  {
    forall c {:trigger l[c]} | 0 <= c < |l| ensures ll[c] <= ll[c + 1] {
      StartsOrder(cls, v, ll, c, c + 1);
    }
  }

  /** As long as some element of class k is not yet in place, class k has a free slot. */
  lemma Room<T>(cls: T -> nat, v: seq<T>, ll: seq<nat>, l: seq<nat>, filled: set<nat>, j: nat)
    requires Filling(cls, v, ll, l, filled) && j < |v| && j !in filled
    ensures var k := cls(v[j]); k < |l| && 0 <= ll[k] < l[k] <= ll[k + 1] <= |v| && ll[k] !in filled
  {
    hide Starts, Count;
    var k := cls(v[j]);
    StartsClass(cls, v, ll, j);
    StartsStep(cls, v, ll, k);
    if ll[k] == l[k] {
      CountMore(cls, v, k, ll[k], ll[k + 1], j);
    }
  }

  /** One move: the element in hand, v[j], goes to the topmost free slot of its class; what was there is now in hand. */
  lemma Move<T>(cls: T -> nat, v: seq<T>, ll: seq<nat>, l: seq<nat>, filled: set<nat>, j: nat, w: seq<T>)
    requires Filling(cls, v, ll, l, filled) && j < |v| && j !in filled && |w| == |v|
    requires var k := cls(v[j]); k < |l| && 0 < l[k] <= |v| && w == v[l[k] - 1 := v[j]][j := v[l[k] - 1]]
    ensures var k := cls(v[j]); Filling(cls, w, ll, l[k := l[k] - 1], filled + {l[k] - 1}) && l[k] - 1 !in filled
    ensures Perm(v, w)
  {
    hide Starts, Perm;
    var k := cls(v[j]);
    Room(cls, v, ll, l, filled, j);
    SwapPerm(v, w, l[k] - 1, j);
    StartsPerm(cls, v, w, ll);
    Moved(cls, v, ll, l, filled, j, w, k, l[k] - 1, l[k := l[k] - 1], filled + {l[k] - 1});
  }

  lemma Moved<T>(cls: T -> nat, v: seq<T>, ll: seq<nat>, l: seq<nat>, filled: set<nat>, j: nat, w: seq<T>,
                 k: nat, d: nat, l': seq<nat>, filled': set<nat>)
    requires Filling(cls, v, ll, l, filled) && j < |v| && j !in filled && |w| == |v| && Starts(cls, w, ll)
    requires k == cls(v[j]) < |l| && d + 1 == l[k] && ll[k] <= d < ll[k + 1] <= |v| && w == v[d := v[j]][j := v[d]]
    requires l' == l[k := d] && filled' == filled + {d}
    ensures Filling(cls, w, ll, l', filled') && d !in filled
  {
    hide Starts;
    assert d !in filled;
    forall c {:trigger l'[c]} | 0 <= c < |l'|
      ensures ll[c] <= l'[c] <= l[c] <= ll[c + 1] && (c != k ==> l'[c] == l[c])
    {
    }
    forall c, p: nat {:trigger l'[c], p in filled'} | 0 <= c < |l'| && ll[c] <= p < l'[c] ensures p !in filled' {
      assert p < l[c];
      if p == d { SlotsDisjoint(cls, v, ll, c, k, p); }
    }
    forall c, p: nat {:trigger l'[c], p in filled'} | 0 <= c < |l'| && l'[c] <= p < ll[c + 1] ensures p in filled' {
      if p != d { assert l[c] <= p; }
    }
    forall c, p: nat {:trigger l'[c], w[p]} | 0 <= c < |l'| && l'[c] <= p < ll[c + 1] && p < |w|
      ensures cls(w[p]) == c
    {
      if p == d {
        SlotsDisjoint(cls, v, ll, c, k, p);
      } else {
        assert l[c] <= p && p in filled && w[p] == v[p];
      }
    }
    assert forall p :: p in filled' ==> p < |w|;
  }

  /** When every slot below j is filled, comparing j with l tells whether slot j is filled: if not, it is a leader. */
  lemma Scan<T>(cls: T -> nat, v: seq<T>, ll: seq<nat>, l: seq<nat>, filled: set<nat>, j: nat)
    requires Filling(cls, v, ll, l, filled) && j < |v| && forall p: nat :: p < j ==> p in filled
    ensures var k := cls(v[j]); k < |l| && (j >= l[k] <==> j in filled)
  {
    hide Starts;
    if j in filled {
      StartsEnds(cls, v, ll);
      var c := SlotClass(ll, j, |ll| - 1);
      assert l[c] <= j;
    } else {
      Room(cls, v, ll, l, filled, j);
    }
  }

  /** The number of moves bounds how far the scan can have come. */
  lemma MovesBound(filled: set<nat>, n: nat, j: nat)
    requires forall p :: p in filled ==> p < n
    requires forall p: nat :: p < j ==> p in filled
    ensures j <= |filled| <= n
  {
    var all := SlotsBelow(n);
    var low := SlotsBelow(j);
    SubsetCard(filled, all);
    SubsetCard(low, filled);
  }

  /** One free slot left means that the element in it is already at home: n - 1 moves are enough. */
  lemma Finished<T>(cls: T -> nat, v: seq<T>, ll: seq<nat>, l: seq<nat>, filled: set<nat>)
    requires Filling(cls, v, ll, l, filled) && |filled| >= |v| - 1
    ensures Classified(cls, v, ll)
  {
    hide Starts;
    forall c, p: nat | 0 <= c < |ll| - 1 && ll[c] <= p < ll[c + 1] && p < |v| ensures cls(v[p]) == c {
      if p in filled {
        assert l[c] <= p;
      } else {
        Room(cls, v, ll, l, filled, p);
        var k := cls(v[p]);
        if ll[k] != p {
          TwoMissing(filled, |v|, p, ll[k]);
        }
        SlotsDisjoint(cls, v, ll, c, k, p);
      }
    }
  }

  lemma TwoMissing(filled: set<nat>, n: nat, p: nat, q: nat)
    requires forall x :: x in filled ==> x < n
    requires p < n && q < n && p != q && p !in filled && q !in filled
    ensures |filled| < n - 1
  {
    var all := SlotsBelow(n);
    SubsetCard(filled + {p, q}, all);
  }

  /** One turn of the inner loop. v is the sequence as it will be once the element in hand is put down. */
  method MoveOne<T(!new)>(a: array<T>, lo: nat, nmemb: nat, l: array<nat>, j: nat, flash: T, cls: T -> nat,
      ghost ll: seq<nat>, ghost v: seq<T>, ghost filled: set<nat>)
      returns (k: nat, flash': T, ghost v': seq<T>, ghost filled': set<nat>)
    requires lo + nmemb <= a.Length && j < nmemb
    requires Filling(cls, v, ll, l[..], filled) && j !in filled && v == a[lo..lo + nmemb][j := flash]
    requires a as object != l as object
    modifies a, l
    ensures k < l.Length && Filling(cls, v', ll, l[..], filled') && Perm(v, v')
    ensures filled <= filled' && |filled'| == |filled| + 1 <= nmemb
    ensures if j == l[k] then j in filled' && v' == a[lo..lo + nmemb]
            else j !in filled' && v' == a[lo..lo + nmemb][j := flash']
    ensures forall p :: 0 <= p < lo || lo + nmemb <= p < a.Length ==> a[p] == old(a[p])
  {
    hide Filling, Perm;
    k := cls(flash);
    Room(cls, v, ll, l[..], filled, j);
    var d := l[k] - 1;
    v' := v[d := v[j]][j := v[d]];
    filled' := filled + {d};
    Move(cls, v, ll, l[..], filled, j, v');
    FilledBound(cls, v', ll, l[..][k := d], filled');
    flash', a[lo + d] := a[lo + d], flash;
    l[k] := d;
  }

  /** Follow one cycle from its leader j until the slot j itself is filled. */
  method FollowCycle<T(!new)>(a: array<T>, lo: nat, nmemb: nat, l: array<nat>, j: nat, k0: nat, cls: T -> nat,
      ghost ll: seq<nat>, ghost filled0: set<nat>) returns (k: nat, moved: nat, ghost filled: set<nat>)
    requires lo + nmemb <= a.Length && j < nmemb && k0 < l.Length
    requires Filling(cls, a[lo..lo + nmemb], ll, l[..], filled0)
    requires j !in filled0 && j < l[k0]
    requires a as object != l as object
    modifies a, l
    ensures k < l.Length && j == l[k] && j in filled
    ensures Filling(cls, a[lo..lo + nmemb], ll, l[..], filled)
    ensures filled0 <= filled && |filled| == |filled0| + moved && moved > 0
    ensures Perm(old(a[lo..lo + nmemb]), a[lo..lo + nmemb])
    ensures forall p :: 0 <= p < lo || lo + nmemb <= p < a.Length ==> a[p] == old(a[p])
  {
    hide Filling, Perm;
    k, moved, filled := k0, 0, filled0;
    var flash := a[lo + j];
    ghost var v := a[lo..lo + nmemb];
    PermRefl(v);
    while j != l[k]
      invariant k < l.Length
      invariant Filling(cls, v, ll, l[..], filled) && Perm(old(a[lo..lo + nmemb]), v)
      invariant if j == l[k] then j in filled && v == a[lo..lo + nmemb] && moved > 0
                else j !in filled && v == a[lo..lo + nmemb][j := flash]
      invariant filled0 <= filled && |filled| == |filled0| + moved
      invariant forall p :: 0 <= p < lo || lo + nmemb <= p < a.Length ==> a[p] == old(a[p])
      decreases nmemb - |filled|
    {
      ghost var before := v;
      k, flash, v, filled := MoveOne(a, lo, nmemb, l, j, flash, cls, ll, v, filled);
      PermTrans(old(a[lo..lo + nmemb]), before, v);
      moved := moved + 1;
    }
  }

  lemma FilledBound<T>(cls: T -> nat, v: seq<T>, ll: seq<nat>, l: seq<nat>, filled: set<nat>, j: nat := 0)
    requires Filling(cls, v, ll, l, filled)
    requires forall p: nat :: p < j ==> p in filled
    ensures j <= |filled| <= |v|
  {
    MovesBound(filled, |v|, j);
  }

  /** The whole permutation: afterwards every element lies in a slot of its class. */
  method Permute<T(!new)>(a: array<T>, lo: nat, nmemb: nat, lsize: nat, l: array<nat>, cls: T -> nat,
                               ghost ll: seq<nat>)
    requires lo + nmemb <= a.Length && nmemb >= 2 && lsize >= 1 && l.Length == lsize
    requires Starts(cls, a[lo..lo + nmemb], ll) && |ll| == lsize + 1
    requires forall c :: 0 <= c < lsize ==> l[c] == ll[c + 1]
    requires a as object != l as object
    modifies a, l
    ensures Perm(old(a[lo..lo + nmemb]), a[lo..lo + nmemb])
    ensures Classified(cls, a[lo..lo + nmemb], ll)
    ensures forall p :: 0 <= p < lo || lo + nmemb <= p < a.Length ==> a[p] == old(a[p])
  {
    StartsEnds(cls, a[lo..lo + nmemb], ll);
    FillingStart(cls, a[lo..lo + nmemb], ll, l[..]);
    hide Filling, Perm, Starts, Classified;
    PermRefl(a[lo..lo + nmemb]);
    var nmove: nat, j: nat, k: nat := 0, 0, lsize - 1;
    ghost var filled: set<nat> := {};
    while nmove < nmemb - 1
      invariant k < lsize && j < nmemb && nmove == |filled|
      invariant Filling(cls, a[lo..lo + nmemb], ll, l[..], filled)
      invariant Perm(old(a[lo..lo + nmemb]), a[lo..lo + nmemb])
      invariant forall p: nat :: p < j ==> p in filled
      invariant j >= l[k] <==> j in filled
      invariant forall p :: 0 <= p < lo || lo + nmemb <= p < a.Length ==> a[p] == old(a[p])
      decreases nmemb - nmove
    {
      j, k := FindLeader(a, lo, nmemb, l, j, k, cls, ll, filled);
      ghost var before := a[lo..lo + nmemb];
      var moved;
      k, moved, filled := FollowCycle(a, lo, nmemb, l, j, k, cls, ll, filled);
      PermTrans(old(a[lo..lo + nmemb]), before, a[lo..lo + nmemb]);
      nmove := nmove + moved;
      FilledBound(cls, a[lo..lo + nmemb], ll, l[..], filled);
    }
    Finished(cls, a[lo..lo + nmemb], ll, l[..], filled);
  }

  /** The scan for the next leader never leaves the array while two or more slots are free. */
  method FindLeader<T(!new)>(a: array<T>, lo: nat, nmemb: nat, l: array<nat>, j0: nat, k0: nat, cls: T -> nat,
      ghost ll: seq<nat>, ghost filled: set<nat>) returns (j: nat, k: nat)
    requires lo + nmemb <= a.Length && j0 < nmemb && k0 < l.Length
    requires Filling(cls, a[lo..lo + nmemb], ll, l[..], filled) && |filled| < nmemb - 1
    requires forall p: nat :: p < j0 ==> p in filled
    requires j0 >= l[k0] <==> j0 in filled
    ensures j < nmemb && k < l.Length && j < l[k] && j !in filled
    ensures forall p: nat :: p < j ==> p in filled
  {
    hide Filling;
    j, k := j0, k0;
    while j >= l[k]
      invariant j < nmemb && k < l.Length
      invariant forall p: nat :: p < j ==> p in filled
      invariant j >= l[k] <==> j in filled
      decreases nmemb - j
    {
      FilledBound(cls, a[lo..lo + nmemb], ll, l[..], filled, j + 1);
      j := j + 1;
      Scan(cls, a[lo..lo + nmemb], ll, l[..], filled, j);
      k := cls(a[lo + j]);
    }
  }
}
