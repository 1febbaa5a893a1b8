/** The specification shared by insertion sort, mergesort and the stable parallel sort. */
module StableSorting {
  import opened Order
  import opened Sequences

  /** Left-biased merge. */
  function Merge<T>(cmp: (T, T) -> int, s: seq<T>, t: seq<T>): seq<T>
    decreases |s| + |t|
  {
    if s == [] then t
    else if t == [] then s
    else if cmp(s[0], t[0]) <= 0 then [s[0]] + Merge(cmp, s[1..], t)
    else [t[0]] + Merge(cmp, s, t[1..])
  }

  /** Merge the elements in one by one, from the left. */
  function StableSort<T>(cmp: (T, T) -> int, s: seq<T>): seq<T> {
    if s == [] then [] else Merge(cmp, StableSort(cmp, s[..|s| - 1]), [s[|s| - 1]])
  }

  /** The elements equivalent to x, in the order in which they occur in s. */
  function Class<T>(cmp: (T, T) -> int, s: seq<T>, x: T): seq<T> {
    if s == [] then []
    else (if cmp(s[0], x) == 0 then [s[0]] else []) + Class(cmp, s[1..], x)
  }

  /** What stability means: equivalent elements keep their order. */
  ghost predicate SameClasses<T(!new)>(cmp: (T, T) -> int, s: seq<T>, t: seq<T>) {
    forall x :: Class(cmp, s, x) == Class(cmp, t, x)
  }

  ghost predicate IsStableSort<T(!new)>(cmp: (T, T) -> int, input: seq<T>, output: seq<T>) {
    Sorted(cmp, output) && SameClasses(cmp, input, output)
  }

  // ---------------------------------------------------------------- classes

  lemma {:induction false} ClassConcat<T>(cmp: (T, T) -> int, s: seq<T>, t: seq<T>, x: T)
    ensures Class(cmp, s + t, x) == Class(cmp, s, x) + Class(cmp, t, x)
  {
    if s == [] {
      assert s + t == t;
    } else {
      var u := s + t;
      assert u[0] == s[0] && u[1..] == s[1..] + t;
      ClassConcat(cmp, s[1..], t, x);
      Associative(if cmp(s[0], x) == 0 then [s[0]] else [], Class(cmp, s[1..], x), Class(cmp, t, x));
    }
  }

  lemma {:induction false} ClassEmpty<T>(cmp: (T, T) -> int, s: seq<T>, x: T)
    requires forall i :: 0 <= i < |s| ==> cmp(s[i], x) != 0
    ensures Class(cmp, s, x) == []
  {
    if s != [] {
      ClassEmpty(cmp, s[1..], x);
    }
  }

  lemma {:induction false} ClassMember<T>(cmp: (T, T) -> int, s: seq<T>, x: T, i: nat)
    requires i < |Class(cmp, s, x)|
    ensures exists j :: 0 <= j < |s| && s[j] == Class(cmp, s, x)[i] && cmp(s[j], x) == 0
  {
    if cmp(s[0], x) == 0 && i == 0 {
      assert s[0] == Class(cmp, s, x)[i];
    } else {
      var i' := if cmp(s[0], x) == 0 then i - 1 else i;
      ClassMember(cmp, s[1..], x, i');
      var j :| 0 <= j < |s[1..]| && s[1..][j] == Class(cmp, s[1..], x)[i'] && cmp(s[1..][j], x) == 0;
      assert s[j + 1] == Class(cmp, s, x)[i];
    }
  }

  /** The head of a sorted sequence whose classes agree with those of t is at most every element of t. */
  lemma HeadBelow<T(!new)>(cmp: (T, T) -> int, s: seq<T>, t: seq<T>, k: nat)
    requires TotalPreorder(cmp) && Sorted(cmp, s) && SameClasses(cmp, s, t) && k < |t|
    ensures s != [] && cmp(s[0], t[k]) <= 0
  {
    var x := t[k];
    assert t == t[..k] + t[k..];
    ClassConcat(cmp, t[..k], t[k..], x);
    assert Class(cmp, t, x) != [];
    ClassMember(cmp, s, x, 0);
  }

  lemma ClassTail<T>(cmp: (T, T) -> int, s: seq<T>, x: T)
    requires s != []
    ensures Class(cmp, s[1..], x) == if cmp(s[0], x) == 0 then Class(cmp, s, x)[1..] else Class(cmp, s, x)
  {
  }

  // ---------------------------------------------------------------- uniqueness

  /** There is only one stable sort of any input. */
  lemma {:induction false} StableSortUnique<T(!new)>(cmp: (T, T) -> int, s: seq<T>, t: seq<T>)
    requires TotalPreorder(cmp) && Sorted(cmp, s) && Sorted(cmp, t) && SameClasses(cmp, s, t)
    ensures s == t
  {
    if s == [] {
      if t != [] { HeadBelow(cmp, s, t, 0); }
    } else {
      HeadBelow(cmp, t, s, 0);
      HeadBelow(cmp, s, t, 0);
      assert Class(cmp, s, s[0])[0] == s[0];
      assert Class(cmp, t, s[0])[0] == t[0];
      forall x ensures Class(cmp, s[1..], x) == Class(cmp, t[1..], x) {
        ClassTail(cmp, s, x);
        ClassTail(cmp, t, x);
      }
      StableSortUnique(cmp, s[1..], t[1..]);
    }
  }

  // ---------------------------------------------------------------- merge

  lemma {:induction false} MergeMembers<T>(cmp: (T, T) -> int, s: seq<T>, t: seq<T>, y: T)
    requires y in Merge(cmp, s, t)
    ensures y in s || y in t
    decreases |s| + |t|
  {
    if s == [] || t == [] {
    } else if cmp(s[0], t[0]) <= 0 {
      if y != s[0] { MergeMembers(cmp, s[1..], t, y); }
    } else {
      if y != t[0] { MergeMembers(cmp, s, t[1..], y); }
    }
  }

  lemma SortedCons<T>(cmp: (T, T) -> int, x: T, s: seq<T>)
    requires Sorted(cmp, s)
    requires forall y :: y in s ==> cmp(x, y) <= 0
    ensures Sorted(cmp, [x] + s)
  {
    var r := [x] + s;
    forall i, j | 0 <= i < j < |r| ensures cmp(r[i], r[j]) <= 0 {
      assert r[j] in s;
    }
  }

  lemma ClassAbove<T(!new)>(cmp: (T, T) -> int, s: seq<T>, x: T, y: T)
    requires TotalPreorder(cmp) && Sorted(cmp, s) && s != [] && cmp(s[0], x) > 0 && cmp(x, y) == 0
    ensures Class(cmp, s, y) == []
  {
    forall i | 0 <= i < |s| ensures cmp(s[i], y) != 0 {
      assert cmp(s[0], s[i]) <= 0;
    }
    ClassEmpty(cmp, s, y);
  }

  lemma ClassCons<T>(cmp: (T, T) -> int, x: T, s: seq<T>, y: T)
    ensures Class(cmp, [x] + s, y) == Class(cmp, [x], y) + Class(cmp, s, y)
  {
    ClassConcat(cmp, [x], s, y);
  }

  lemma {:induction false} MergeSorted<T(!new)>(cmp: (T, T) -> int, s: seq<T>, t: seq<T>)
    requires TotalPreorder(cmp) && Sorted(cmp, s) && Sorted(cmp, t)
    ensures Sorted(cmp, Merge(cmp, s, t))
    decreases |s| + |t|
  {
    if s == [] || t == [] {
    } else {
      var left := cmp(s[0], t[0]) <= 0;
      var x, s', t' := if left then s[0] else t[0], if left then s[1..] else s, if left then t else t[1..];
      MergeSorted(cmp, s', t');
      forall y | y in Merge(cmp, s', t') ensures cmp(x, y) <= 0 {
        MergeMembers(cmp, s', t', y);
      }
      SortedCons(cmp, x, Merge(cmp, s', t'));
    }
  }

  /** The left-biased merge puts every class of s before the same class of t. */
  lemma {:induction false} MergeClass<T(!new)>(cmp: (T, T) -> int, s: seq<T>, t: seq<T>, y: T)
    requires TotalPreorder(cmp) && Sorted(cmp, s) && Sorted(cmp, t)
    ensures Class(cmp, Merge(cmp, s, t), y) == Class(cmp, s, y) + Class(cmp, t, y)
    decreases |s| + |t|
  {
    if s == [] || t == [] {
    } else if cmp(s[0], t[0]) <= 0 {
      MergeClass(cmp, s[1..], t, y);
      ClassCons(cmp, s[0], Merge(cmp, s[1..], t), y);
      assert s == [s[0]] + s[1..];
      ClassCons(cmp, s[0], s[1..], y);
    } else {
      MergeClass(cmp, s, t[1..], y);
      ClassCons(cmp, t[0], Merge(cmp, s, t[1..]), y);
      assert t == [t[0]] + t[1..];
      ClassCons(cmp, t[0], t[1..], y);
      if cmp(t[0], y) == 0 {
        ClassAbove(cmp, s, t[0], y);
      }
    }
  }

  lemma {:induction false} StableSortCorrect<T(!new)>(cmp: (T, T) -> int, s: seq<T>)
    requires TotalPreorder(cmp)
    ensures IsStableSort(cmp, s, StableSort(cmp, s))
  {
    if s != [] {
      var front, x := s[..|s| - 1], s[|s| - 1];
      StableSortCorrect(cmp, front);
      MergeSorted(cmp, StableSort(cmp, front), [x]);
      forall y ensures Class(cmp, s, y) == Class(cmp, StableSort(cmp, s), y) {
        assert s == front + [x];
        ClassConcat(cmp, front, [x], y);
        MergeClass(cmp, StableSort(cmp, front), [x], y);
      }
    }
  }

  /** StableSort is exactly the sorted sequence that keeps the order of equivalent elements. */
  lemma StableSortCharacterised<T(!new)>(cmp: (T, T) -> int, s: seq<T>, t: seq<T>)
    requires TotalPreorder(cmp)
    ensures t == StableSort(cmp, s) <==> IsStableSort(cmp, s, t)
  {
    StableSortCorrect(cmp, s);
    if IsStableSort(cmp, s, t) {
      StableSortUnique(cmp, t, StableSort(cmp, s));
    }
  }

  /** Merging two stably sorted halves sorts the whole stably: the step of every merge-based sort. */
  lemma MergeOfSorts<T(!new)>(cmp: (T, T) -> int, s: seq<T>, t: seq<T>)
    requires TotalPreorder(cmp)
    ensures Merge(cmp, StableSort(cmp, s), StableSort(cmp, t)) == StableSort(cmp, s + t)
  {
    var s', t' := StableSort(cmp, s), StableSort(cmp, t);
    StableSortCorrect(cmp, s);
    StableSortCorrect(cmp, t);
    MergeSorted(cmp, s', t');
    forall y ensures Class(cmp, s + t, y) == Class(cmp, Merge(cmp, s', t'), y) {
      ClassConcat(cmp, s, t, y);
      MergeClass(cmp, s', t', y);
    }
    StableSortCharacterised(cmp, s + t, Merge(cmp, s', t'));
  }

  // ---------------------------------------------------------------- permutations

  lemma {:induction false} MergePerm<T>(cmp: (T, T) -> int, s: seq<T>, t: seq<T>)
    ensures Perm(s + t, Merge(cmp, s, t))
    decreases |s| + |t|
  {
    if s == [] {
      assert s + t == t;
    } else if t == [] {
      assert s + t == s;
    } else if cmp(s[0], t[0]) <= 0 {
      MergePerm(cmp, s[1..], t);
      assert s + t == [s[0]] + (s[1..] + t);
    } else {
      MergePerm(cmp, s, t[1..]);
      assert multiset(s + t) == multiset(s) + multiset([t[0]] + t[1..]) by { assert t == [t[0]] + t[1..]; }
      assert multiset(s + t[1..]) == multiset(s) + multiset(t[1..]);
    }
  }

  lemma {:induction false} StableSortPerm<T>(cmp: (T, T) -> int, s: seq<T>)
    ensures Perm(s, StableSort(cmp, s))
    ensures |StableSort(cmp, s)| == |s|
  {
    if s != [] {
      StableSortPerm(cmp, s[..|s| - 1]);
      MergePerm(cmp, StableSort(cmp, s[..|s| - 1]), [s[|s| - 1]]);
      assert s == s[..|s| - 1] + [s[|s| - 1]];
    }
    PermLength(s, StableSort(cmp, s));
  }
}
