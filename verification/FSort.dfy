/** Flashsort (posix/lib/fsort.c): classify by metric, permute in place, sort each class. */
module FlashSort {
  import opened Order
  import opened StableSorting
  import opened FlashClasses
  import opened FlashPermutation
  import opened InsertionSorting
  import opened BinaryHeapSort
  import opened Sequences

  // ---------------------------------------------------------------- classes from metrics

  const EPSILON: real := 0.000000001

  function Clamp(prod: real, lsize: nat): (r: real)
    requires lsize > 0
    ensures 0.0 <= r <= (lsize - 1) as real
  {
    var low := if prod < 0.0 then 0.0 else prod;
    if low > (lsize - 1) as real then (lsize - 1) as real else low
  }

  function CalculateK(factor: real, value: real, lsize: nat): (k: nat)
    requires lsize > 0
    ensures k < lsize
  {
    Clamp(factor * value + EPSILON, lsize).Floor
  }

  lemma MulMonotone(factor: real, x: real, y: real)
    requires factor >= 0.0 && x <= y
    ensures factor * x <= factor * y
  {
    assert factor * y == factor * x + factor * (y - x);
  }

  lemma ClampMonotone(x: real, y: real, lsize: nat)
    requires lsize > 0 && x <= y
    ensures Clamp(x, lsize) <= Clamp(y, lsize)
  {
  }

  lemma CalculateKMonotone(factor: real, x: real, y: real, lsize: nat)
    requires lsize > 0 && factor >= 0.0 && x <= y
    ensures CalculateK(factor, x, lsize) <= CalculateK(factor, y, lsize)
  {
    hide Clamp;
    MulMonotone(factor, x, y);
    ClampMonotone(factor * x + EPSILON, factor * y + EPSILON, lsize);
  }

  /** The class number is the integer part of the product and a billionth, cut off at both ends. */
  lemma CalculateKInteger(factor: real, value: real, lsize: nat)
    requires lsize > 0
    ensures var p, k := factor * value + 0.000000001, CalculateK(factor, value, lsize);
      && (p < 0.0 ==> k == 0) && (p > (lsize - 1) as real ==> k == lsize - 1)
      && (0.0 <= p <= (lsize - 1) as real ==> k as real <= p < k as real + 1.0)
  {
  }

  /** The least element is in the first class and the greatest in the last, with d the difference of their metrics. */
  lemma ExtremesClasses(d: real, lsize: nat)
    requires d > 0.0 && lsize >= 2
    ensures CalculateK((lsize - 1) as real / d, 0.0, lsize) == 0
    ensures CalculateK((lsize - 1) as real / d, d, lsize) == lsize - 1
  {
    var step := (lsize - 1) as real / d;
    assert step * d == (lsize - 1) as real && step * 0.0 == 0.0;
    CalculateKInteger(step, 0.0, lsize);
    CalculateKInteger(step, d, lsize);
  }

  /** The metric never contradicts the comparator. */
  ghost predicate MetricAgrees<T(!new)>(cmp: (T, T) -> int, metric: T -> real) {
    forall x, y :: cmp(x, y) <= 0 ==> metric(x) <= metric(y)
  }

  ghost predicate Least<T>(cmp: (T, T) -> int, s: seq<T>, x: T) {
    x in s && forall i :: 0 <= i < |s| ==> cmp(x, s[i]) <= 0
  }

  ghost predicate Greatest<T>(cmp: (T, T) -> int, s: seq<T>, x: T) {
    x in s && forall i :: 0 <= i < |s| ==> cmp(s[i], x) <= 0
  }

  /** If not all elements are equivalent, the metric tells least from greatest (or the step would be infinite). */
  ghost predicate Separates<T(!new)>(cmp: (T, T) -> int, metric: T -> real, s: seq<T>) {
    forall x, y :: Least(cmp, s, x) && Greatest(cmp, s, y) && cmp(x, y) < 0 ==> metric(x) < metric(y)
  }

  /** Elements of a lower class are not greater than elements of a higher one. */
  ghost predicate ClassesOrdered<T(!new)>(cmp: (T, T) -> int, cls: T -> nat) {
    forall x, y :: cls(x) < cls(y) ==> cmp(x, y) <= 0
  }

  function ClassOf<T>(metric: T -> real, step: real, amin_metric: real, lsize: nat): T -> nat
    requires lsize > 0
  {
    x => CalculateK(step, metric(x) - amin_metric, lsize)
  }

  /** Classes computed from an agreeing metric are ordered. */
  lemma MetricOrdersClasses<T(!new)>(cmp: (T, T) -> int, metric: T -> real, step: real, amin_metric: real, lsize: nat)
    requires TotalPreorder(cmp) && MetricAgrees(cmp, metric) && step >= 0.0 && lsize > 0
    ensures ClassesOrdered(cmp, ClassOf(metric, step, amin_metric, lsize))
  {
    var cls := ClassOf(metric, step, amin_metric, lsize);
    forall x, y | cls(x) < cls(y) ensures cmp(x, y) <= 0 {
      if cmp(x, y) > 0 {
        assert cmp(y, x) <= 0;
        CalculateKMonotone(step, metric(y) - amin_metric, metric(x) - amin_metric, lsize);
      }
    }
  }

  // ---------------------------------------------------------------- sorting each class

  /** Sorting the slots of class k extends the sorted prefix over them. */
  lemma ClassSorted<T(!new)>(cmp: (T, T) -> int, cls: T -> nat, s: seq<T>, t: seq<T>, ll: seq<nat>, k: nat)
    requires TotalPreorder(cmp) && ClassesOrdered(cmp, cls)
    requires Starts(cls, s, ll) && Classified(cls, s, ll) && k < |ll| - 1 && |t| == |s|
    requires ll[k] <= ll[k + 1] <= |s| && Sorted(cmp, s[..ll[k]])
    requires forall i :: 0 <= i < ll[k] || ll[k + 1] <= i < |s| ==> t[i] == s[i]
    requires SortedPerm(cmp, s[ll[k]..ll[k + 1]], t[ll[k]..ll[k + 1]])
    ensures Starts(cls, t, ll) && Classified(cls, t, ll) && Sorted(cmp, t[..ll[k + 1]]) && Perm(s, t)
  {
    var p, q := ll[k], ll[k + 1];
    SplicePerm(s, t, p, q);
    StartsPerm(cls, s, t, ll);
    ClassKept(cls, s, t, ll, k);
    forall i, j | 0 <= i < p && p <= j < q ensures cmp(t[i], t[j]) <= 0 {
      StartsEnds(cls, s, ll);
      var c := SlotClass(ll, i, k);
      assert cls(t[i]) == c && cls(t[j]) == k;
    }
    assert t[..p] == s[..p];
    assert t[..q] == t[..p] + t[p..q];
    SortedConcat(cmp, t[..p], t[p..q]);
  }

  lemma SplicePerm<T>(s: seq<T>, t: seq<T>, p: nat, q: nat)
    requires p <= q <= |s| == |t| && Perm(s[p..q], t[p..q])
    requires forall i :: 0 <= i < p || q <= i < |s| ==> t[i] == s[i]
    ensures Perm(s, t)
  {
    assert s == s[..p] + s[p..q] + s[q..] && t == s[..p] + t[p..q] + s[q..];
    PermConcat(s[..p], s[p..q], s[..p], t[p..q]);
    PermConcat(s[..p] + s[p..q], s[q..], s[..p] + t[p..q], s[q..]);
  }

  lemma ClassKept<T>(cls: T -> nat, s: seq<T>, t: seq<T>, ll: seq<nat>, k: nat)
    requires Starts(cls, s, ll) && Classified(cls, s, ll) && k < |ll| - 1 && |t| == |s|
    requires ll[k] <= ll[k + 1] <= |s| && Perm(s[ll[k]..ll[k + 1]], t[ll[k]..ll[k + 1]])
    requires forall i :: 0 <= i < ll[k] || ll[k + 1] <= i < |s| ==> t[i] == s[i]
    ensures Classified(cls, t, ll)
  {
    hide Starts, Perm;
    forall c, i: nat | 0 <= c < |ll| - 1 && ll[c] <= i < ll[c + 1] && i < |t| ensures cls(t[i]) == c {
      if ll[k] <= i < ll[k + 1] {
        SlotsDisjoint(cls, s, ll, c, k, i);
        PermSym(s[ll[k]..ll[k + 1]], t[ll[k]..ll[k + 1]]);
        PermMember(t[ll[k]..ll[k + 1]], s[ll[k]..ll[k + 1]], i - ll[k]);
      }
    }
  }

  method SortClass<T(!new)>(a: array<T>, lo: nat, n: nat, cmp: (T, T) -> int)
    requires TotalPreorder(cmp) && lo + n <= a.Length
    modifies a
    ensures SortedPerm(cmp, old(a[lo..lo + n]), a[lo..lo + n])
    ensures forall p :: 0 <= p < lo || lo + n <= p < a.Length ==> a[p] == old(a[p])
  {
    ghost var was := a[lo..lo + n];
    if n > 7 {
      HSortR(a, lo, n, cmp);
    } else if n > 1 {
      ISortR(a, lo, n, cmp);
      StableSortCorrect(cmp, was);
      StableSortPerm(cmp, was);
    }
  }

  method SortClasses<T(!new)>(a: array<T>, lo: nat, nmemb: nat, lsize: nat, ll: array<nat>, ghost cls: T -> nat,
                                   cmp: (T, T) -> int)
    requires lo + nmemb <= a.Length && ll.Length == lsize + 1 && a as object != ll as object
    requires TotalPreorder(cmp) && ClassesOrdered(cmp, cls)
    requires Starts(cls, a[lo..lo + nmemb], ll[..]) && Classified(cls, a[lo..lo + nmemb], ll[..])
    modifies a
    ensures SortedPerm(cmp, old(a[lo..lo + nmemb]), a[lo..lo + nmemb])
    ensures forall p :: 0 <= p < lo || lo + nmemb <= p < a.Length ==> a[p] == old(a[p])
  {
    hide TotalPreorder, ClassesOrdered, Starts, Classified, Sorted, Perm;
    NothingSorted(cmp, cls, a[lo..lo + nmemb], ll[..]);
    PermRefl(a[lo..lo + nmemb]);
    for k := 0 to lsize
      invariant Starts(cls, a[lo..lo + nmemb], ll[..]) && Classified(cls, a[lo..lo + nmemb], ll[..])
      invariant ll[k] <= nmemb && Sorted(cmp, a[lo..lo + nmemb][..ll[k]])
      invariant Perm(old(a[lo..lo + nmemb]), a[lo..lo + nmemb])
      invariant forall p :: 0 <= p < lo || lo + nmemb <= p < a.Length ==> a[p] == old(a[p])
    {
      ghost var s := a[lo..lo + nmemb];
      NextClass(cls, s, ll[..], k);
      var n := ll[k + 1] - ll[k];
      if (n > 1 && ll[k + 1] < ll[k]) || n > nmemb {
        // "wrong order"
        assert false;
      }
      SortClassAt(a, lo, nmemb, ll[k], n, cmp, cls, ll[..], k);
      PermTrans(old(a[lo..lo + nmemb]), s, a[lo..lo + nmemb]);
    }
    StartsEnds(cls, a[lo..lo + nmemb], ll[..]);
    assert a[lo..lo + nmemb][..nmemb] == a[lo..lo + nmemb];
  }

  lemma NothingSorted<T>(cmp: (T, T) -> int, cls: T -> nat, s: seq<T>, ll: seq<nat>)
    requires Starts(cls, s, ll)
    ensures |ll| > 0 && ll[0] == 0 && Sorted(cmp, s[..0])
  {
    StartsEnds(cls, s, ll);
  }

  lemma NextClass<T>(cls: T -> nat, s: seq<T>, ll: seq<nat>, k: nat)
    requires Starts(cls, s, ll) && k < |ll| - 1
    ensures ll[k] <= ll[k + 1] <= |s|
  {
    StartsOrder(cls, s, ll, k, k + 1);
    StartsOrder(cls, s, ll, k + 1, |ll| - 1);
    StartsEnds(cls, s, ll);
  }

  method SortClassAt<T(!new)>(a: array<T>, lo: nat, nmemb: nat, p: nat, n: nat, cmp: (T, T) -> int,
      ghost cls: T -> nat, ghost ll: seq<nat>, ghost k: nat)
    requires lo + nmemb <= a.Length
    requires TotalPreorder(cmp) && ClassesOrdered(cmp, cls)
    requires Starts(cls, a[lo..lo + nmemb], ll) && Classified(cls, a[lo..lo + nmemb], ll)
    requires k < |ll| - 1 && p == ll[k] && p + n == ll[k + 1] <= nmemb && Sorted(cmp, a[lo..lo + nmemb][..p])
    modifies a
    ensures Starts(cls, a[lo..lo + nmemb], ll) && Classified(cls, a[lo..lo + nmemb], ll)
    ensures Sorted(cmp, a[lo..lo + nmemb][..ll[k + 1]]) && Perm(old(a[lo..lo + nmemb]), a[lo..lo + nmemb])
    ensures forall p :: 0 <= p < lo || lo + nmemb <= p < a.Length ==> a[p] == old(a[p])
  {
    hide TotalPreorder, ClassesOrdered, Starts, Classified, Sorted, Perm;
    ghost var s := a[lo..lo + nmemb];
    SubSlice(a, lo, nmemb, p, p + n);
    SortClass(a, lo + p, n, cmp);
    SubSlice(a, lo, nmemb, p, p + n);
    ClassSorted(cmp, cls, s, a[lo..lo + nmemb], ll, k);
  }

  // ---------------------------------------------------------------- counting

  /** How many elements each class has. */
  method Histogram<T>(a: array<T>, lo: nat, nmemb: nat, lsize: nat, cls: T -> nat) returns (l: array<nat>)
    requires lo + nmemb <= a.Length && forall i :: lo <= i < lo + nmemb ==> cls(a[i]) < lsize
    ensures fresh(l) && l.Length == lsize && forall c :: 0 <= c < lsize ==> l[c] == Count(cls, a[lo..lo + nmemb], c)
  {
    hide Count;
    ghost var s := a[lo..lo + nmemb];
    NoCounts(cls, s);
    l := new nat[lsize](i => 0);
    for i := 0 to nmemb
      invariant forall c :: 0 <= c < lsize ==> l[c] == Count(cls, s[..i], c)
    {
      var k := cls(a[lo + i]);
      forall c | 0 <= c < lsize
        ensures Count(cls, s[..i + 1], c) == Count(cls, s[..i], c) + if cls(s[i]) == c then 1 else 0
      {
        CountPush(cls, s, i, c);
      }
      l[k] := l[k] + 1;
    }
    assert s[..nmemb] == s;
  }

  lemma NoCounts<T>(cls: T -> nat, s: seq<T>)
    ensures forall c: nat :: Count(cls, s[..0], c) == 0
  {
  }

  /** Class counts, and from them where each class starts (ll) and ends (l). */
  method CountClasses<T>(a: array<T>, lo: nat, nmemb: nat, lsize: nat, cls: T -> nat)
    returns (l: array<nat>, ll: array<nat>)
    requires lo + nmemb <= a.Length && lsize >= 2
    requires forall i :: lo <= i < lo + nmemb ==> cls(a[i]) < lsize
    ensures fresh(l) && fresh(ll) && l.Length == lsize && ll.Length == lsize + 1
    ensures Starts(cls, a[lo..lo + nmemb], ll[..])
    ensures forall c :: 0 <= c < lsize ==> l[c] == ll[c + 1]
  {
    hide Count;
    ghost var s := a[lo..lo + nmemb];
    l := Histogram(a, lo, nmemb, lsize, cls);
    ll := new nat[lsize + 1](i => 0);
    ll[0] := 0;
    ll[1] := l[0];
    assert Below(cls, s, 1) == Below(cls, s, 0) + Count(cls, s, 0);
    for k := 1 to lsize
      invariant forall c :: k <= c < lsize ==> l[c] == Count(cls, s, c)
      invariant forall c :: 0 <= c < k ==> l[c] == ll[c + 1] == Below(cls, s, c + 1)
      invariant ll[0] == 0
    {
      l[k] := l[k] + l[k - 1];
      ll[k + 1] := l[k];
    }
    assert a[lo..lo + nmemb] == s;
    forall c | 0 <= c < |ll[..]| ensures ll[..][c] == Below(cls, s, c) {
      if c > 0 { assert l[c - 1] == ll[c]; }
    }
  }

  method FindExtremes<T(!new)>(a: array<T>, lo: nat, nmemb: nat, cmp: (T, T) -> int)
    returns (amin: T, amax: T, idx_max: nat)
    requires TotalPreorder(cmp) && nmemb > 0 && lo + nmemb <= a.Length
    ensures Least(cmp, a[lo..lo + nmemb], amin) && Greatest(cmp, a[lo..lo + nmemb], amax)
    ensures idx_max < nmemb && a[lo + idx_max] == amax
  {
    amin, idx_max, amax := a[lo], 0, a[lo];
    ghost var s := a[lo..lo + nmemb];
    assert amin == s[0];
    for i := 0 to nmemb
      invariant amin in s && idx_max < nmemb && amax == s[idx_max]
      invariant cmp(amin, s[0]) <= 0 <= cmp(amax, s[0])
      invariant forall j :: 0 <= j < i ==> cmp(amin, s[j]) <= 0 && cmp(s[j], amax) <= 0
    {
      assert a[lo + i] == s[i];
      if cmp(a[lo + i], amin) < 0 {
        amin := a[lo + i];
      }
      if cmp(a[lo + i], amax) > 0 {
        idx_max := i;
        amax := a[lo + idx_max];
      }
    }
  }

  // ---------------------------------------------------------------- the sort

  method FSortF<T(!new)>(a: array<T>, lo: nat, nmemb: nat, factor: real, cmp: (T, T) -> int, metric: T -> real)
    requires lo + nmemb <= a.Length
    requires TotalPreorder(cmp) && MetricAgrees(cmp, metric) && Separates(cmp, metric, a[lo..lo + nmemb])
    modifies a
    ensures SortedPerm(cmp, old(a[lo..lo + nmemb]), a[lo..lo + nmemb])
    ensures forall p :: 0 <= p < lo || lo + nmemb <= p < a.Length ==> a[p] == old(a[p])
  {
    if nmemb <= 1 {
      return;
    }
    var lsize := CalculateK(nmemb as real, factor, nmemb) + 1;
    if lsize < 2 {
      lsize := 2;
    }
    var amin, amax, idx_max := FindExtremes(a, lo, nmemb, cmp);
    ghost var s := a[lo..lo + nmemb];
    if cmp(amin, amax) == 0 {
      AllEquivalent(cmp, s, amin, amax);
      return;
    }
    StepPositive(cmp, metric, s, amin, amax);
    var amin_metric := metric(amin);
    var amax_metric := metric(amax);
    var step := (lsize - 1) as real / (amax_metric - amin_metric);
    StepNonNegative(lsize - 1, amax_metric - amin_metric);
    var cls := ClassOf(metric, step, amin_metric, lsize);
    MetricOrdersClasses(cmp, metric, step, amin_metric, lsize);
    FlashWith(a, lo, nmemb, lsize, idx_max, cls, cmp);
  }

  /** The rest of the sort needs only that the classes are ordered and in range. */
  method FlashWith<T(!new)>(a: array<T>, lo: nat, nmemb: nat, lsize: nat, idx_max: nat, cls: T -> nat,
                                 cmp: (T, T) -> int)
    requires lo + nmemb <= a.Length && nmemb >= 2 && lsize >= 2 && idx_max < nmemb
    requires TotalPreorder(cmp) && ClassesOrdered(cmp, cls) && forall x :: cls(x) < lsize
    modifies a
    ensures SortedPerm(cmp, old(a[lo..lo + nmemb]), a[lo..lo + nmemb])
    ensures forall p :: 0 <= p < lo || lo + nmemb <= p < a.Length ==> a[p] == old(a[p])
  {
    hide TotalPreorder, ClassesOrdered, Starts, Classified;
    ghost var was := a[lo..lo + nmemb];
    var l, ll := CountClasses(a, lo, nmemb, lsize, cls);
    SwapElements(a, lo, lo + idx_max);
    ghost var s := a[lo..lo + nmemb];
    SwapPerm(was, s, 0, idx_max);
    StartsPerm(cls, was, s, ll[..]);
    Permute(a, lo, nmemb, lsize, l, cls, ll[..]);
    ghost var t := a[lo..lo + nmemb];
    StartsPerm(cls, s, t, ll[..]);
    SortClasses(a, lo, nmemb, lsize, ll, cls, cmp);
  }

  lemma AllEquivalent<T(!new)>(cmp: (T, T) -> int, s: seq<T>, amin: T, amax: T)
    requires TotalPreorder(cmp) && Least(cmp, s, amin) && Greatest(cmp, s, amax) && cmp(amin, amax) == 0
    ensures SortedPerm(cmp, s, s)
  {
    forall i, j | 0 <= i < j < |s| ensures cmp(s[i], s[j]) <= 0 {
      assert cmp(s[i], amax) <= 0 && cmp(amax, amin) <= 0 && cmp(amin, s[j]) <= 0;
    }
  }

  lemma StepNonNegative(n: nat, d: real)
    requires d > 0.0
    ensures n as real / d >= 0.0
  {
  }

  lemma StepPositive<T(!new)>(cmp: (T, T) -> int, metric: T -> real, s: seq<T>, amin: T, amax: T)
    requires TotalPreorder(cmp) && Separates(cmp, metric, s)
    requires Least(cmp, s, amin) && Greatest(cmp, s, amax) && cmp(amin, amax) != 0
    ensures metric(amin) < metric(amax)
  {
    var i :| 0 <= i < |s| && s[i] == amax;
    assert cmp(amin, s[i]) <= 0;
  }
}
