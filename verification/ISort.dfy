/** Insertion sort in place (posix/lib/isort.c). */
module InsertionSorting {
  import opened Sequences
  import opened StableSorting

  /** Putting x before the first greater element is merging it in. */
  lemma {:induction false} MergeOne<T>(cmp: (T, T) -> int, s: seq<T>, x: T, j: nat)
    requires j <= |s|
    requires forall k :: 0 <= k < j ==> cmp(s[k], x) <= 0
    requires j < |s| ==> cmp(s[j], x) > 0
    ensures Merge(cmp, s, [x]) == s[..j] + [x] + s[j..]
  {
    if s == [] {
    } else if j == 0 {
      assert [x][1..] == [] && Merge(cmp, s, []) == s;
      assert s[..0] + [x] + s[0..] == [x] + s;
    } else {
      var r := s[1..];
      MergeOne(cmp, r, x, j - 1);
      assert Merge(cmp, s, [x]) == [s[0]] + Merge(cmp, r, [x]);
      assert s[..j] == [s[0]] + r[..j - 1] && s[j..] == r[j - 1..];
      Associative([s[0]], r[..j - 1], [x]);
      Associative([s[0]], r[..j - 1] + [x], s[j..]);
    }
  }

  /** The inner loop: the place of element i among the sorted elements below it. */
  method FindPlace<T>(a: array<T>, lo: nat, i: nat, cmp: (T, T) -> int) returns (j: nat)
    requires lo + i < a.Length
    ensures j <= i && (forall k :: lo <= k < lo + j ==> cmp(a[k], a[lo + i]) <= 0)
    ensures j < i ==> cmp(a[lo + j], a[lo + i]) > 0
  {
    j := 0;
    while j < i
      invariant j <= i && forall k :: lo <= k < lo + j ==> cmp(a[k], a[lo + i]) <= 0
    {
      if cmp(a[lo + j], a[lo + i]) > 0 {
        break;
      }
      j := j + 1;
    }
  }

  /** Shifts slots from..to by one. */
  method Memmove<T>(a: array<T>, from: nat, to: nat)
    requires from <= to < a.Length
    modifies a
    ensures forall k :: from < k <= to ==> a[k] == old(a[k - 1])
    ensures forall k :: 0 <= k <= from || to < k < a.Length ==> a[k] == old(a[k])
  {
    forall k | from < k <= to { a[k] := a[k - 1]; }
  }

  lemma Inserted<T>(s: seq<T>, x: T, j: nat, after: seq<T>)
    requires j <= |s| && |after| == |s| + 1 && after[j] == x
    requires (forall k :: 0 <= k < j ==> after[k] == s[k]) && (forall k :: j < k < |after| ==> after[k] == s[k - 1])
    ensures after == s[..j] + [x] + s[j..]
  {
  }

  /** Element i goes in front of the first greater one below it. */
  method InsertNext<T>(a: array<T>, lo: nat, i: nat, cmp: (T, T) -> int)
    requires lo + i < a.Length
    modifies a
    ensures a[lo..lo + i + 1] == Merge(cmp, old(a[lo..lo + i]), [old(a[lo + i])])
    ensures forall k :: 0 <= k < lo || lo + i < k < a.Length ==> a[k] == old(a[k])
  {
    hide Merge;
    ghost var s, x := a[lo..lo + i], a[lo + i];
    var j := FindPlace(a, lo, i, cmp);
    MergeOne(cmp, s, x, j);
    if j < i {
      var tmp := a[lo + i];
      Memmove(a, lo + j, lo + i);
      a[lo + j] := tmp;
    }
    Inserted(s, x, j, a[lo..lo + i + 1]);
  }

  method ISortR<T(!new)>(a: array<T>, lo: nat, nmemb: nat, cmp: (T, T) -> int)
    requires lo + nmemb <= a.Length
    modifies a
    ensures a[lo..lo + nmemb] == StableSort(cmp, old(a[lo..lo + nmemb]))
    ensures forall k :: 0 <= k < lo || lo + nmemb <= k < a.Length ==> a[k] == old(a[k])
  {
    hide Merge;
    ghost var was := a[lo..lo + nmemb];
    SortOfSingle(cmp, was);
    if nmemb <= 1 {
      return;
    }
    SubSlice(a, lo, nmemb, 0, 1);
    for i := 1 to nmemb
      invariant forall k :: 0 <= k < lo || lo + i <= k < a.Length ==> a[k] == old(a[k])
      invariant a[lo..lo + i] == StableSort(cmp, was[..i])
    {
      assert was[..i + 1][..i] == was[..i] && a[lo + i] == was[i];
      InsertNext(a, lo, i, cmp);
    }
    assert was[..nmemb] == was;
  }

  lemma SortOfSingle<T>(cmp: (T, T) -> int, s: seq<T>)
    ensures |s| <= 1 ==> StableSort(cmp, s) == s
    ensures |s| >= 1 ==> StableSort(cmp, s[..1]) == s[..1]
  {
    if |s| >= 1 {
      assert s[..1][..0] == [];
      if |s| == 1 { assert s[..1] == s; }
    }
  }
}
