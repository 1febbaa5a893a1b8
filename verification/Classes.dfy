/** Flashsort's classes: counting them and laying them out one behind the other. */
module FlashClasses {
  import opened Order

  /** How many elements of s belong to class c. */
  function Count<T>(cls: T -> nat, s: seq<T>, c: nat): nat {
    if s == [] then 0 else (if cls(s[0]) == c then 1 else 0) + Count(cls, s[1..], c)
  }

  /** How many elements of s belong to a class below c: where class c starts in the layout. */
  function Below<T>(cls: T -> nat, s: seq<T>, c: nat): nat {
    if c == 0 then 0 else Below(cls, s, c - 1) + Count(cls, s, c - 1)
  }

  lemma {:induction false} CountConcat<T>(cls: T -> nat, s: seq<T>, t: seq<T>, c: nat)
    ensures Count(cls, s + t, c) == Count(cls, s, c) + Count(cls, t, c)
  {
    if s == [] {
      assert s + t == t;
    } else {
      assert (s + t)[1..] == s[1..] + t;
      CountConcat(cls, s[1..], t, c);
    }
  }

  lemma CountPush<T>(cls: T -> nat, s: seq<T>, i: nat, c: nat)
    requires i < |s|
    ensures Count(cls, s[..i + 1], c) == Count(cls, s[..i], c) + if cls(s[i]) == c then 1 else 0
  {
    assert s[..i + 1] == s[..i] + [s[i]];
    CountConcat(cls, s[..i], [s[i]], c);
  }

  lemma CountRemove<T>(cls: T -> nat, s: seq<T>, j: nat, c: nat)
    requires j < |s|
    ensures Count(cls, s, c) == Count(cls, s[..j] + s[j + 1..], c) + if cls(s[j]) == c then 1 else 0
  {
    assert s == s[..j] + ([s[j]] + s[j + 1..]);
    CountConcat(cls, s[..j], [s[j]] + s[j + 1..], c);
    CountConcat(cls, [s[j]], s[j + 1..], c);
    CountConcat(cls, s[..j], s[j + 1..], c);
  }

  lemma {:induction false} CountPerm<T>(cls: T -> nat, s: seq<T>, t: seq<T>, c: nat)
    requires Perm(s, t)
    ensures Count(cls, s, c) == Count(cls, t, c)
  {
    PermLength(s, t);
    if s != [] {
      var j := PermRemove(s, t);
      CountPerm(cls, s[1..], t[..j] + t[j + 1..], c);
      CountRemove(cls, t, j, c);
    }
  }

  lemma {:induction false} CountAtLeast<T>(cls: T -> nat, s: seq<T>, c: nat, p: nat, q: nat)
    requires p <= q <= |s| && forall i :: p <= i < q ==> cls(s[i]) == c
    ensures Count(cls, s, c) >= q - p
    decreases |s|
  {
    if p < q {
      CountAtLeast(cls, s[1..], c, if p == 0 then 0 else p - 1, q - 1);
    }
  }

  /** A class that fills p..q and also has a member outside has more than q - p elements. */
  lemma {:induction false} CountMore<T>(cls: T -> nat, s: seq<T>, c: nat, p: nat, q: nat, j: nat)
    requires p <= q <= |s| && forall i :: p <= i < q ==> cls(s[i]) == c
    requires j < |s| && !(p <= j < q) && cls(s[j]) == c
    ensures Count(cls, s, c) > q - p
  {
    assert s == s[..j] + [s[j]] + s[j + 1..];
    CountConcat(cls, s[..j] + [s[j]], s[j + 1..], c);
    CountConcat(cls, s[..j], [s[j]], c);
    if j < p {
      CountAtLeast(cls, s[j + 1..], c, p - j - 1, q - j - 1);
    } else {
      CountAtLeast(cls, s[..j], c, p, q);
    }
  }

  lemma {:induction false} BelowMonotone<T>(cls: T -> nat, s: seq<T>, c: nat, d: nat)
    requires c <= d
    ensures Below(cls, s, c) <= Below(cls, s, d)
  {
    if c < d { BelowMonotone(cls, s, c, d - 1); }
  }

  lemma {:induction false} BelowPerm<T>(cls: T -> nat, s: seq<T>, t: seq<T>, c: nat)
    requires Perm(s, t)
    ensures Below(cls, s, c) == Below(cls, t, c)
  {
    if c > 0 {
      BelowPerm(cls, s, t, c - 1);
      CountPerm(cls, s, t, c - 1);
    }
  }

  lemma {:induction false} BelowCons<T>(cls: T -> nat, s: seq<T>, c: nat)
    requires s != []
    ensures Below(cls, s, c) == Below(cls, s[1..], c) + if cls(s[0]) < c then 1 else 0
  {
    if c > 0 { BelowCons(cls, s, c - 1); }
  }

  /** The classes together hold everything. */
  lemma {:induction false} BelowAll<T>(cls: T -> nat, s: seq<T>, lsize: nat)
    requires forall i :: 0 <= i < |s| ==> cls(s[i]) < lsize
    ensures Below(cls, s, lsize) == |s|
  {
    if s == [] {
      BelowEmpty(cls, s, lsize);
    } else {
      BelowCons(cls, s, lsize);
      BelowAll(cls, s[1..], lsize);
    }
  }

  lemma {:induction false} BelowEmpty<T>(cls: T -> nat, s: seq<T>, c: nat)
    requires s == []
    ensures Below(cls, s, c) == 0
  {
    if c > 0 { BelowEmpty(cls, s, c - 1); }
  }

  // ---------------------------------------------------------------- layout

  /** ll[c] is where class c starts. */
  ghost predicate Starts<T>(cls: T -> nat, s: seq<T>, ll: seq<nat>) {
    && |ll| > 0
    && (forall i :: 0 <= i < |s| ==> cls(s[i]) < |ll| - 1)
    && (forall c :: 0 <= c < |ll| ==> ll[c] == Below(cls, s, c))
  }

  /** Every slot holds an element of the class the slot belongs to. */
  ghost predicate Classified<T>(cls: T -> nat, s: seq<T>, ll: seq<nat>) {
    forall c, p :: 0 <= c < |ll| - 1 && ll[c] <= p < ll[c + 1] && p < |s| ==> cls(s[p]) == c
  }

  lemma StartsEnds<T>(cls: T -> nat, s: seq<T>, ll: seq<nat>)
    requires Starts(cls, s, ll)
    ensures |ll| > 0 && ll[0] == 0 && ll[|ll| - 1] == |s|
  {
    BelowAll(cls, s, |ll| - 1);
  }

  lemma StartsClass<T>(cls: T -> nat, s: seq<T>, ll: seq<nat>, i: nat)
    requires Starts(cls, s, ll) && i < |s|
    ensures cls(s[i]) < |ll| - 1
  {
  }

  lemma StartsStep<T>(cls: T -> nat, s: seq<T>, ll: seq<nat>, c: nat)
    requires Starts(cls, s, ll) && c < |ll| - 1
    ensures ll[c] + Count(cls, s, c) == ll[c + 1] <= |s|
  {
    StartsOrder(cls, s, ll, c + 1, |ll| - 1);
    StartsEnds(cls, s, ll);
  }

  lemma StartsOrder<T>(cls: T -> nat, s: seq<T>, ll: seq<nat>, c: nat, d: nat)
    requires Starts(cls, s, ll) && c <= d < |ll|
    ensures ll[c] <= ll[d]
  {
    BelowMonotone(cls, s, c, d);
  }

  lemma StartsPerm<T>(cls: T -> nat, s: seq<T>, t: seq<T>, ll: seq<nat>)
    requires Starts(cls, s, ll) && Perm(s, t)
    ensures Starts(cls, t, ll)
  {
    forall i | 0 <= i < |t| ensures cls(t[i]) < |ll| - 1 {
      PermMember(t, s, i);
    }
    forall c | 0 <= c < |ll| ensures ll[c] == Below(cls, t, c) {
      BelowPerm(cls, s, t, c);
    }
  }

  /** The slots of different classes do not overlap. */
  lemma SlotsDisjoint<T>(cls: T -> nat, s: seq<T>, ll: seq<nat>, c: nat, d: nat, p: nat)
    requires Starts(cls, s, ll) && c < |ll| - 1 && d < |ll| - 1
    requires ll[c] <= p < ll[c + 1] && ll[d] <= p < ll[d + 1]
    ensures c == d
  {
    if c < d { StartsOrder(cls, s, ll, c + 1, d); }
    if d < c { StartsOrder(cls, s, ll, d + 1, c); }
  }

  /** The class whose slots contain p. */
  lemma {:induction false} SlotClass(ll: seq<nat>, p: nat, bound: nat) returns (c: nat)
    requires bound < |ll| && ll[0] == 0 && p < ll[bound]
    ensures c < bound && ll[c] <= p < ll[c + 1]
    decreases bound
  {
    if ll[bound - 1] <= p {
      c := bound - 1;
    } else {
      c := SlotClass(ll, p, bound - 1);
    }
  }
}
