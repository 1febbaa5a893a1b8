/** Comparators, sortedness and permutations: the vocabulary shared by all sort modules.

    A comparator plays the role of `compare_fun3`: negative, zero or positive for less, equivalent or greater.
    Distinct elements may compare as equivalent, so the order is a total preorder. */
module Order {

  /** What every sort expects of the comparator it is given. */
  ghost predicate TotalPreorder<T(!new)>(cmp: (T, T) -> int) {
    && (forall x, y :: cmp(x, y) < 0 <==> cmp(y, x) > 0)
    && (forall x, y, z :: cmp(x, y) <= 0 && cmp(y, z) <= 0 ==> cmp(x, z) <= 0)
  }

  ghost predicate Sorted<T>(cmp: (T, T) -> int, s: seq<T>) {
    forall i, j :: 0 <= i < j < |s| ==> cmp(s[i], s[j]) <= 0
  }

  /** Every element of s is at most every element of t. */
  ghost predicate AllLeq<T>(cmp: (T, T) -> int, s: seq<T>, t: seq<T>) {
    forall i, j :: 0 <= i < |s| && 0 <= j < |t| ==> cmp(s[i], t[j]) <= 0
  }

  ghost predicate Perm<T>(s: seq<T>, t: seq<T>) {
    multiset(s) == multiset(t)
  }

  ghost predicate SortedPerm<T>(cmp: (T, T) -> int, input: seq<T>, output: seq<T>) {
    Sorted(cmp, output) && Perm(input, output)
  }

  lemma PermTrans<T>(s: seq<T>, t: seq<T>, u: seq<T>)
    requires Perm(s, t) && Perm(t, u)
    ensures Perm(s, u)
  {
  }

  lemma PermSym<T>(s: seq<T>, t: seq<T>)
    requires Perm(s, t)
    ensures Perm(t, s)
  {
  }

  lemma PermRefl<T>(s: seq<T>)
    ensures Perm(s, s)
  {
  }

  lemma PermLength<T>(s: seq<T>, t: seq<T>)
    requires Perm(s, t)
    ensures |s| == |t|
  {
    assert |multiset(s)| == |s| && |multiset(t)| == |t|;
  }

  lemma PermMember<T>(s: seq<T>, t: seq<T>, i: nat)
    requires Perm(s, t) && i < |s|
    ensures exists j :: 0 <= j < |t| && t[j] == s[i]
  {
    assert s[i] in multiset(s);
    assert s[i] in multiset(t);
    assert s[i] in t;
  }

  /** Removing the first element of s from t, wherever it is. */
  lemma PermRemove<T>(s: seq<T>, t: seq<T>) returns (j: nat)
    requires Perm(s, t) && s != []
    ensures j < |t| && t[j] == s[0] && Perm(s[1..], t[..j] + t[j + 1..])
  {
    PermMember(s, t, 0);
    j :| 0 <= j < |t| && t[j] == s[0];
    var front, back := t[..j], t[j + 1..];
    assert s == [s[0]] + s[1..] && t == front + [s[0]] + back;
    assert multiset(t) == multiset(front) + multiset{s[0]} + multiset(back);
    assert multiset(s) == multiset{s[0]} + multiset(s[1..]);
    assert multiset(front + back) == multiset(t) - multiset{s[0]};
    assert multiset(s[1..]) == multiset(s) - multiset{s[0]};
  }

  lemma PermConcat<T>(s: seq<T>, s': seq<T>, t: seq<T>, t': seq<T>)
    requires Perm(s, t) && Perm(s', t')
    ensures Perm(s + s', t + t')
  {
  }

  lemma SortedConcat<T>(cmp: (T, T) -> int, s: seq<T>, t: seq<T>)
    requires Sorted(cmp, s) && Sorted(cmp, t) && AllLeq(cmp, s, t)
    ensures Sorted(cmp, s + t)
  {
  }

  lemma SwapPerm<T>(s: seq<T>, t: seq<T>, i: nat, j: nat)
    requires i < |s| && j < |s| && |t| == |s|
    requires t == s[i := s[j]][j := s[i]]
    ensures Perm(s, t)
  {
  }

  /** swap_elements (posix/lib/sort_common.c) */
  method SwapElements<T>(a: array<T>, i: nat, j: nat)
    requires i < a.Length && j < a.Length
    modifies a
    ensures a[i] == old(a[j]) && a[j] == old(a[i])
    ensures forall k :: 0 <= k < a.Length && k != i && k != j ==> a[k] == old(a[k])
  {
    a[i], a[j] := a[j], a[i];
  }
}
