/** Bottom-up mergesort (posix/lib/msort.c). */
module MergeSorting {
  import opened Alignment
  import opened Merging
  import opened Numbers
  import opened Order
  import opened Sequences
  import opened StableSorting

  // ---------------------------------------------------------------- block structure

  ghost predicate Block<T>(cmp: (T, T) -> int, was: seq<T>, now: seq<T>, p: nat, q: nat)
    requires p <= q <= |was| == |now|
  {
    now[p..q] == StableSort(cmp, was[p..q])
  }

  /** Every block of length step that starts in from..to is sorted stably; the last block may be shorter. */
  ghost predicate Blocks<T>(cmp: (T, T) -> int, was: seq<T>, now: seq<T>, step: nat, from: nat, to: nat)
    requires step > 0 && |was| == |now|
  {
    forall p: nat :: from <= p < to && p < |was| && Aligned(p, step) ==> Block(cmp, was, now, p, Min(p + step, |was|))
  }

  lemma SingletonBlocks<T>(cmp: (T, T) -> int, s: seq<T>)
    ensures Blocks(cmp, s, s, 1, 0, |s|)
  {
    forall p: nat | p < |s| && Aligned(p, 1) ensures Block(cmp, s, s, p, Min(p + 1, |s|)) {
      assert s[p..p + 1][..0] == [];
    }
  }

  /** Merging the two blocks that start at p makes one block of twice the length; the others keep theirs. */
  lemma MergedBlocks<T(!new)>(cmp: (T, T) -> int, was: seq<T>, now: seq<T>, next: seq<T>, step: nat, p: nat, n: nat)
    requires TotalPreorder(cmp) && step > 0 && |was| == |now| == |next| && p + step < |was|
    requires Aligned(p, 2 * step) && n == Min(step, |was| - p - step)
    requires Blocks(cmp, was, now, 2 * step, 0, p) && Blocks(cmp, was, now, step, p, |was|)
    requires forall k :: 0 <= k < p || p + step + n <= k < |was| ==> next[k] == now[k]
    requires next[p..p + step + n] == Merge(cmp, now[p..p + step], now[p + step..p + step + n])
    ensures Blocks(cmp, was, next, 2 * step, 0, p + 2 * step) && Blocks(cmp, was, next, step, p + 2 * step, |was|)
  {
    hide StableSort, Merge, Block, Blocks;
    MergedPair(cmp, was, now, next, step, p, n);
    MergedBelow(cmp, was, now, next, step, p, n);
    MergedAbove(cmp, was, now, next, step, p, n);
  }

  lemma MergedBelow<T>(cmp: (T, T) -> int, was: seq<T>, now: seq<T>, next: seq<T>, step: nat, p: nat, n: nat)
    requires step > 0 && |was| == |now| == |next| && p + step < |was|
    requires Aligned(p, 2 * step) && n == Min(step, |was| - p - step)
    requires Blocks(cmp, was, now, 2 * step, 0, p) && Block(cmp, was, next, p, p + step + n)
    requires forall k :: 0 <= k < p ==> next[k] == now[k]
    ensures Blocks(cmp, was, next, 2 * step, 0, p + 2 * step)
  {
    hide Block, Aligned;
    forall q: nat | q < p + 2 * step && q < |was| && Aligned(q, 2 * step)
      ensures Block(cmp, was, next, q, Min(q + 2 * step, |was|))
    {
      if q < p {
        AlignedGap(q, p, 2 * step);
        KeptBlock(cmp, was, now, next, q, q + 2 * step);
      } else if q > p {
        AlignedGap(p, q, 2 * step);
      }
    }
  }

  lemma MergedAbove<T>(cmp: (T, T) -> int, was: seq<T>, now: seq<T>, next: seq<T>, step: nat, p: nat, n: nat)
    requires step > 0 && |was| == |now| == |next| && p + step < |was| && n == Min(step, |was| - p - step)
    requires Blocks(cmp, was, now, step, p, |was|)
    requires forall k :: p + step + n <= k < |was| ==> next[k] == now[k]
    ensures Blocks(cmp, was, next, step, p + 2 * step, |was|)
  {
    hide Block;
    forall q: nat | p + 2 * step <= q < |was| && Aligned(q, step)
      ensures Block(cmp, was, next, q, Min(q + step, |was|))
    {
      KeptBlock(cmp, was, now, next, q, Min(q + step, |was|));
    }
  }

  /** A block at least as long as the sequence is the whole of it. */
  lemma WholeBlock<T>(cmp: (T, T) -> int, was: seq<T>, now: seq<T>, step: nat)
    requires step > 0 && |was| == |now| <= step && Blocks(cmp, was, now, step, 0, |was|)
    ensures now == StableSort(cmp, was)
  {
    if was != [] {
      assert Aligned(0, step) && Block(cmp, was, now, 0, Min(step, |was|));
      assert was[0..|was|] == was && now[0..|was|] == now;
    }
  }

  lemma MergedPair<T(!new)>(cmp: (T, T) -> int, was: seq<T>, now: seq<T>, next: seq<T>, step: nat, p: nat, n: nat)
    requires TotalPreorder(cmp) && step > 0 && |was| == |now| == |next| && p + step < |was|
    requires Aligned(p, 2 * step) && n == Min(step, |was| - p - step)
    requires Blocks(cmp, was, now, step, p, |was|)
    requires next[p..p + step + n] == Merge(cmp, now[p..p + step], now[p + step..p + step + n])
    ensures Block(cmp, was, next, p, p + step + n)
  {
    hide StableSort, Merge;
    var mid, end := p + step, p + step + n;
    AlignedDouble(p, step);
    assert Block(cmp, was, now, p, Min(p + step, |was|)) && Block(cmp, was, now, mid, Min(mid + step, |was|));
    MergeOfSorts(cmp, was[p..mid], was[mid..end]);
    assert was[p..mid] + was[mid..end] == was[p..end];
  }

  lemma KeptBlock<T>(cmp: (T, T) -> int, was: seq<T>, now: seq<T>, next: seq<T>, p: nat, q: nat)
    requires p <= q <= |was| == |now| == |next| && Block(cmp, was, now, p, q)
    requires forall k :: p <= k < q ==> next[k] == now[k]
    ensures Block(cmp, was, next, p, q)
  {
    assert next[p..q] == now[p..q];
  }

  // ---------------------------------------------------------------- merging

  method Memcpy<T>(dst: array<T>, to: nat, src: array<T>, from: nat, len: nat)
    requires dst != src && to + len <= dst.Length && from + len <= src.Length
    modifies dst
    ensures forall k :: to <= k < to + len ==> dst[k] == src[from + k - to]
    ensures forall k :: 0 <= k < to || to + len <= k < dst.Length ==> dst[k] == old(dst[k])
  {
    forall k | to <= k < to + len { dst[k] := src[from + k - to]; }
  }

  method MergeAdjacent<T>(a: array<T>, source: nat, m: nat, n: nat, scratch: array<T>, cmp: (T, T) -> int)
    requires a != scratch && source + m + n <= a.Length && m + n <= scratch.Length
    modifies a, scratch
    ensures a[source..source + m + n] == Merge(cmp, old(a[source..source + m]), old(a[source + m..source + m + n]))
    ensures forall k :: 0 <= k < source || source + m + n <= k < a.Length ==> a[k] == old(a[k])
  {
    hide Merge, Merged;
    var i, j := 0, 0;
    var left, right := source, source + m;
    ghost var x, y := a[source..source + m], a[source + m..source + m + n];
    ghost var out: seq<T> := [];
    MergedNone(cmp, x, y);
    var total_len := m + n;
    while i + j < total_len
      invariant 0 <= i <= m && 0 <= j <= n
      invariant i + j < total_len ==> left == source + i && right == source + m + j
      invariant |out| == i + j && Merged(cmp, x, y, i, j, out)
      invariant forall k :: 0 <= k < |out| ==> scratch[k] == out[k]
      modifies scratch
    {
      if i >= m {
        MergeRest(cmp, x, y, i, j, out);
        Memcpy(scratch, i + j, a, right, n - j);
        out := out + y[j..];
        j := n;
      } else if j >= n {
        MergeRest(cmp, x, y, i, j, out);
        Memcpy(scratch, i + j, a, left, m - i);
        out := out + x[i..];
        i := m;
      } else {
        MergeStep(cmp, x, y, i, j, out);
        if cmp(a[left], a[right]) <= 0 {
          scratch[i + j] := a[left];
          out := out + [x[i]];
          left, i := left + 1, i + 1;
        } else {
          scratch[i + j] := a[right];
          out := out + [y[j]];
          right, j := right + 1, j + 1;
        }
      }
    }
    MergedAll(cmp, x, y, out);
    Memcpy(a, source, scratch, 0, total_len);
  }

  // ---------------------------------------------------------------- the sort

  method MSortR<T(!new, 0)>(a: array<T>, lo: nat, nmemb: nat, cmp: (T, T) -> int)
    requires lo + nmemb <= a.Length
    requires TotalPreorder(cmp)
    modifies a
    ensures a[lo..lo + nmemb] == StableSort(cmp, old(a[lo..lo + nmemb]))
    ensures forall k :: 0 <= k < lo || lo + nmemb <= k < a.Length ==> a[k] == old(a[k])
  {
    ghost var was := a[lo..lo + nmemb];
    SingletonBlocks(cmp, was);
    if nmemb <= 1 {
      WholeBlock(cmp, was, was, 1);
      return;
    }
    var scratch := new T[nmemb];
    var step := 1;
    while step < nmemb
      invariant step > 0
      invariant forall k :: 0 <= k < lo || lo + nmemb <= k < a.Length ==> a[k] == old(a[k])
      invariant Blocks(cmp, was, a[lo..lo + nmemb], step, 0, nmemb)
      decreases nmemb - step
    {
      Pass(a, lo, nmemb, step, scratch, cmp, was);
      step := 2 * step;
    }
    WholeBlock(cmp, was, a[lo..lo + nmemb], step);
  }

  /** One round of the outer loop: blocks of length step become blocks of length 2*step. */
  method Pass<T(!new)>(a: array<T>, lo: nat, nmemb: nat, step: nat, scratch: array<T>, cmp: (T, T) -> int,
                           ghost was: seq<T>)
    requires a != scratch && lo + nmemb <= a.Length && nmemb == scratch.Length == |was|
    requires TotalPreorder(cmp) && 0 < step < nmemb
    requires Blocks(cmp, was, a[lo..lo + nmemb], step, 0, nmemb)
    modifies a, scratch
    ensures Blocks(cmp, was, a[lo..lo + nmemb], 2 * step, 0, nmemb)
    ensures forall k :: 0 <= k < lo || lo + nmemb <= k < a.Length ==> a[k] == old(a[k])
  {
    hide StableSort, Merge;
    var dstep := 2 * step;
    var start_left, start_right := 0, step;
    while start_right < nmemb
      invariant start_right == start_left + step && Aligned(start_left, dstep)
      invariant forall k :: 0 <= k < lo || lo + nmemb <= k < a.Length ==> a[k] == old(a[k])
      invariant Blocks(cmp, was, a[lo..lo + nmemb], dstep, 0, start_left)
      invariant Blocks(cmp, was, a[lo..lo + nmemb], step, start_left, nmemb)
    {
      var m, n := step, step;
      if start_right + n > nmemb {
        n := nmemb - start_right;
      }
      ghost var now := a[lo..lo + nmemb];
      SubSlice(a, lo, nmemb, start_left, start_right);
      SubSlice(a, lo, nmemb, start_right, start_right + n);
      MergeAdjacent(a, lo + start_left, m, n, scratch, cmp);
      SubSlice(a, lo, nmemb, start_left, start_right + n);
      ghost var next := a[lo..lo + nmemb];
      MergedBlocks(cmp, was, now, next, step, start_left, n);
      start_left, start_right := start_left + dstep, start_right + dstep;
    }
    LastBlock(cmp, was, a[lo..lo + nmemb], step, start_left);
  }

  /** What is left over after the last pair is a single block, or nothing. */
  lemma LastBlock<T>(cmp: (T, T) -> int, was: seq<T>, now: seq<T>, step: nat, p: nat)
    requires step > 0 && |was| == |now| && |was| <= p + step && Aligned(p, 2 * step)
    requires Blocks(cmp, was, now, 2 * step, 0, p) && Blocks(cmp, was, now, step, p, |was|)
    ensures Blocks(cmp, was, now, 2 * step, 0, |was|)
  {
    AlignedDouble(p, step);
    forall q: nat | q < |was| && Aligned(q, 2 * step) ensures Block(cmp, was, now, q, Min(q + 2 * step, |was|)) {
      if q == p {
        assert Block(cmp, was, now, p, Min(p + step, |was|));
      } else if q > p {
        AlignedGap(p, q, 2 * step);
      }
    }
  }
}
