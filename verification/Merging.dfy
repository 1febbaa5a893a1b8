/** The state of a two-way merge in progress: shared by mergesort and the parallel sort. */
module Merging {
  import opened Order
  import opened StableSorting

  /** out is what has been written after consuming i elements of x and j elements of y. */
  ghost predicate Merged<T>(cmp: (T, T) -> int, x: seq<T>, y: seq<T>, i: nat, j: nat, out: seq<T>)
    requires i <= |x| && j <= |y|
  {
    |out| == i + j && out + Merge(cmp, x[i..], y[j..]) == Merge(cmp, x, y)
  }

  /** One element moves from the head of one rest to the end of the output. */
  lemma MergeStep<T>(cmp: (T, T) -> int, x: seq<T>, y: seq<T>, i: nat, j: nat, out: seq<T>)
    requires i < |x| && j < |y| && Merged(cmp, x, y, i, j, out)
    ensures cmp(x[i], y[j]) <= 0 ==> Merged(cmp, x, y, i + 1, j, out + [x[i]])
    ensures cmp(x[i], y[j]) > 0 ==> Merged(cmp, x, y, i, j + 1, out + [y[j]])
  {
    var x', y' := x[i..], y[j..];
    assert x'[1..] == x[i + 1..] && y'[1..] == y[j + 1..];
    if cmp(x[i], y[j]) <= 0 {
      assert Merge(cmp, x', y') == [x[i]] + Merge(cmp, x[i + 1..], y');
      PushAssoc(out, x[i], Merge(cmp, x[i + 1..], y'));
    } else {
      assert Merge(cmp, x', y') == [y[j]] + Merge(cmp, x', y[j + 1..]);
      PushAssoc(out, y[j], Merge(cmp, x', y[j + 1..]));
    }
  }

  lemma PushAssoc<T>(s: seq<T>, x: T, t: seq<T>)
    ensures s + ([x] + t) == s + [x] + t
  {
  }

  /** When one side is used up, the rest of the other side completes the output. */
  lemma MergeRest<T>(cmp: (T, T) -> int, x: seq<T>, y: seq<T>, i: nat, j: nat, out: seq<T>)
    requires i <= |x| && j <= |y| && Merged(cmp, x, y, i, j, out)
    ensures |out| == i + j
    ensures i == |x| ==> Merged(cmp, x, y, i, |y|, out + y[j..])
    ensures j == |y| ==> Merged(cmp, x, y, |x|, j, out + x[i..])
  {
    assert Merge(cmp, x[|x|..], y[|y|..]) == [];
  }

  lemma MergedNone<T>(cmp: (T, T) -> int, x: seq<T>, y: seq<T>)
    ensures Merged(cmp, x, y, 0, 0, [])
  {
    assert x[0..] == x && y[0..] == y && [] + Merge(cmp, x, y) == Merge(cmp, x, y);
  }

  lemma MergedAll<T>(cmp: (T, T) -> int, x: seq<T>, y: seq<T>, out: seq<T>)
    requires Merged(cmp, x, y, |x|, |y|, out)
    ensures out == Merge(cmp, x, y) && |out| == |x| + |y|
  {
  }

  /** The rest of one side moves over element by element. */
  lemma MergeTail<T>(cmp: (T, T) -> int, x: seq<T>, y: seq<T>, i: nat, j: nat, out: seq<T>)
    requires i <= |x| && j <= |y| && Merged(cmp, x, y, i, j, out)
    ensures i == |x| && j < |y| ==> Merged(cmp, x, y, i, j + 1, out + [y[j]])
    ensures j == |y| && i < |x| ==> Merged(cmp, x, y, i + 1, j, out + [x[i]])
  {
    if i == |x| && j < |y| {
      assert x[i..] == [] && y[j..] == [y[j]] + y[j + 1..];
      PushAssoc(out, y[j], y[j + 1..]);
    }
    if j == |y| && i < |x| {
      assert y[j..] == [] && x[i..] == [x[i]] + x[i + 1..];
      PushAssoc(out, x[i], x[i + 1..]);
    }
  }

  // ---------------------------------------------------------------- properties closed under merging

  ghost predicate ClosedAt<T>(cmp: (T, T) -> int, good: (seq<T>, seq<T>) -> bool, s: seq<T>, s': seq<T>, t: seq<T>,
                            t': seq<T>)
  {
    good(s, s') && good(t, t') ==> good(s + t, Merge(cmp, s', t'))
  }

  /** good(input, output) says that output is an acceptable sort of input; merging keeps it so. */
  ghost predicate MergeClosed<T(!new)>(cmp: (T, T) -> int, good: (seq<T>, seq<T>) -> bool) {
    forall s, s', t, t' :: ClosedAt(cmp, good, s, s', t, t')
  }

  ghost function StableGood<T>(cmp: (T, T) -> int): (seq<T>, seq<T>) -> bool {
    (s, t) => t == StableSort(cmp, s)
  }

  ghost function SortedGood<T>(cmp: (T, T) -> int): (seq<T>, seq<T>) -> bool {
    (s, t) => SortedPerm(cmp, s, t)
  }

  lemma StableClosed<T(!new)>(cmp: (T, T) -> int)
    requires TotalPreorder(cmp)
    ensures MergeClosed(cmp, StableGood(cmp))
  {
    forall s, s', t, t' ensures ClosedAt(cmp, StableGood(cmp), s, s', t, t') {
      MergeOfSorts(cmp, s, t);
    }
  }

  lemma SortedClosed<T(!new)>(cmp: (T, T) -> int)
    requires TotalPreorder(cmp)
    ensures MergeClosed(cmp, SortedGood(cmp))
  {
    forall s, s', t, t' ensures ClosedAt(cmp, SortedGood(cmp), s, s', t, t') {
      if SortedPerm(cmp, s, s') && SortedPerm(cmp, t, t') {
        MergeSorted(cmp, s', t');
        MergePerm(cmp, s', t');
        PermConcat(s, t, s', t');
        PermTrans(s + t, s' + t', Merge(cmp, s', t'));
      }
    }
  }
}
