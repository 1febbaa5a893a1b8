/** Ternary heapsort in place (posix/lib/ternary-hsort.c). */
module TernaryHeapSort {
  import opened Order
  import opened HeapOrder

  function ParentIdx(idx: nat): nat
    requires idx > 0
  {
    (idx - 1) / 3
  }

  function LeftChildIdx(idx: nat): nat { 3 * idx + 1 }

  function MiddleChildIdx(idx: nat): nat { 3 * idx + 2 }

  function RightChildIdx(idx: nat): nat { 3 * idx + 3 }

  /** The index macros describe the children and the parent of a ternary heap. */
  lemma ChildrenOf(idx: nat, c: nat)
    ensures IsChild(3, idx, c) <==> c == LeftChildIdx(idx) || c == MiddleChildIdx(idx) || c == RightChildIdx(idx)
    ensures IsChild(3, idx, c) <==> c > 0 && ParentIdx(c) == idx
  {
  }

  /** The comparisons of a turn of the sift loop find the largest of root and its children. */
  lemma LargestOf<T(!new)>(cmp: (T, T) -> int, s: seq<T>, to: nat, root: nat, next: nat, third: nat, swap: nat)
    requires TotalPreorder(cmp) && LeftChildIdx(root) < to <= |s|
    requires next == if cmp(s[root], s[LeftChildIdx(root)]) < 0 then LeftChildIdx(root) else root
    requires var middle := MiddleChildIdx(root);
      third == if middle < to && cmp(s[next], s[middle]) < 0 then middle else next
    requires var right := RightChildIdx(root);
      swap == if right < to && cmp(s[third], s[right]) < 0 then right else third
    ensures Dominates(cmp, 3, s, s[swap], root, to)
    ensures swap != root ==> IsChild(3, root, swap) && cmp(s[root], s[swap]) < 0
  {
  }

  method Largest<T(!new)>(a: array<T>, lo: nat, ghost nmemb: nat, root: nat, max_index: nat, cmp: (T, T) -> int)
    returns (swap: nat)
    requires TotalPreorder(cmp)
    requires LeftChildIdx(root) <= max_index < nmemb && lo + nmemb <= a.Length
    ensures root <= swap <= max_index
    ensures Dominates(cmp, 3, a[lo..lo + nmemb], a[lo + swap], root, max_index + 1)
    ensures swap != root ==> IsChild(3, root, swap) && cmp(a[lo + root], a[lo + swap]) < 0
  {
    hide TotalPreorder, Dominates, IsChild;
    var left_child := LeftChildIdx(root);
    swap := root;
    if cmp(a[lo + swap], a[lo + left_child]) < 0 {
      swap := left_child;
    }
    ghost var next := swap;
    ghost var third := swap;
    var middle_child := MiddleChildIdx(root);
    var right_child := RightChildIdx(root);
    if middle_child <= max_index {
      if cmp(a[lo + swap], a[lo + middle_child]) < 0 {
        swap := middle_child;
      }
      third := swap;
      if right_child <= max_index {
        if cmp(a[lo + swap], a[lo + right_child]) < 0 {
          swap := right_child;
        }
      }
    }
    LargestOf(cmp, a[lo..lo + nmemb], max_index + 1, root, next, third, swap);
  }

  lemma NoChildren<T>(cmp: (T, T) -> int, s: seq<T>, to: nat, root: nat)
    requires root < to <= |s| && LeftChildIdx(root) >= to
    ensures Dominates(cmp, 3, s, s[root], root, to)
  {
  }

  /** Restore the heap on start..max_index when only start may violate it. The array holds nmemb elements from lo on. */
  method TernarySiftDown<T(!new)>(a: array<T>, lo: nat, ghost nmemb: nat, start: nat, max_index: nat,
                                       cmp: (T, T) -> int)
    requires TotalPreorder(cmp)
    requires lo + nmemb <= a.Length && start <= max_index < nmemb
    requires Heap(cmp, 3, a[lo..lo + nmemb], start + 1, max_index + 1)
    modifies a
    ensures Heap(cmp, 3, a[lo..lo + nmemb], start, max_index + 1)
    ensures Perm(old(a[lo..lo + nmemb]), a[lo..lo + nmemb])
    ensures forall k :: 0 <= k < lo || lo + max_index < k < a.Length ==> a[k] == old(a[k])
  {
    hide TotalPreorder, Heap, HeapBut, Dominates, Perm, IsChild;
    ghost var to := max_index + 1;
    var root := start;
    SiftStart(cmp, 3, a[lo..lo + nmemb], start, to);
    PermRefl(a[lo..lo + nmemb]);
    while true
      invariant start <= root <= max_index
      invariant HeapBut(cmp, 3, a[lo..lo + nmemb], start, to, root)
      invariant Perm(old(a[lo..lo + nmemb]), a[lo..lo + nmemb])
      invariant forall k :: 0 <= k < lo || lo + max_index < k < a.Length ==> a[k] == old(a[k])
      decreases max_index - root
    {
      var left_child := LeftChildIdx(root);
      if left_child > max_index {
        NoChildren(cmp, a[lo..lo + nmemb], to, root);
        break;
      }
      var swap := Largest(a, lo, nmemb, root, max_index, cmp);
      if swap != root {
        ghost var s := a[lo..lo + nmemb];
        SwapDown(a, lo, nmemb, 3, start, to, root, swap, cmp);
        PermTrans(old(a[lo..lo + nmemb]), s, a[lo..lo + nmemb]);
        root := swap;
      } else {
        break;
      }
    }
    SiftEnd(cmp, 3, a[lo..lo + nmemb], start, to, root);
  }

  method TernaryHeapify<T(!new)>(a: array<T>, lo: nat, nmemb: nat, cmp: (T, T) -> int)
    requires TotalPreorder(cmp)
    requires lo + nmemb <= a.Length && nmemb >= 2
    modifies a
    ensures Heap(cmp, 3, a[lo..lo + nmemb], 0, nmemb)
    ensures Perm(old(a[lo..lo + nmemb]), a[lo..lo + nmemb])
    ensures forall k :: 0 <= k < lo || lo + nmemb <= k < a.Length ==> a[k] == old(a[k])
  {
    var max_index := nmemb - 1;
    var start := ParentIdx(max_index);
    var i: int := start;
    while i >= 0
      invariant -1 <= i <= start
      invariant Heap(cmp, 3, a[lo..lo + nmemb], i + 1, nmemb)
      invariant Perm(old(a[lo..lo + nmemb]), a[lo..lo + nmemb])
      invariant forall k :: 0 <= k < lo || lo + nmemb <= k < a.Length ==> a[k] == old(a[k])
    {
      TernarySiftDown(a, lo, nmemb, i, max_index, cmp);
      i := i - 1;
    }
  }

  /** One turn of the extraction loop. */
  method ExtractMax<T(!new)>(a: array<T>, lo: nat, nmemb: nat, end: nat, cmp: (T, T) -> int)
    requires TotalPreorder(cmp)
    requires lo + nmemb <= a.Length && 0 < end < nmemb
    requires Heap(cmp, 3, a[lo..lo + nmemb], 0, end + 1) && SortedFrom(cmp, a[lo..lo + nmemb], end + 1)
    modifies a
    ensures Heap(cmp, 3, a[lo..lo + nmemb], 0, end) && SortedFrom(cmp, a[lo..lo + nmemb], end)
    ensures Perm(old(a[lo..lo + nmemb]), a[lo..lo + nmemb])
    ensures forall k :: 0 <= k < lo || lo + nmemb <= k < a.Length ==> a[k] == old(a[k])
  {
    hide TotalPreorder, Heap, Perm, SortedFrom;
    ghost var s := a[lo..lo + nmemb];
    SwapElements(a, lo, lo + end);
    ghost var t := a[lo..lo + nmemb];
    ExtractStep(cmp, 3, s, t, end);
    TernarySiftDown(a, lo, nmemb, 0, end - 1, cmp);
    ExtractKeeps(cmp, t, a[lo..lo + nmemb], end);
    PermTrans(s, t, a[lo..lo + nmemb]);
  }

  method TernaryHSortR<T(!new)>(a: array<T>, lo: nat, nmemb: nat, cmp: (T, T) -> int)
    requires TotalPreorder(cmp)
    requires lo + nmemb <= a.Length
    modifies a
    ensures SortedPerm(cmp, old(a[lo..lo + nmemb]), a[lo..lo + nmemb])
    ensures forall k :: 0 <= k < lo || lo + nmemb <= k < a.Length ==> a[k] == old(a[k])
  {
    if nmemb <= 1 {
      return;
    }
    hide TotalPreorder, Heap, SortedFrom;
    TernaryHeapify(a, lo, nmemb, cmp);
    ExtractStart(cmp, a[lo..lo + nmemb]);
    var end := nmemb - 1;
    while end > 0
      invariant 0 <= end < nmemb
      invariant Heap(cmp, 3, a[lo..lo + nmemb], 0, end + 1) && SortedFrom(cmp, a[lo..lo + nmemb], end + 1)
      invariant Perm(old(a[lo..lo + nmemb]), a[lo..lo + nmemb])
      invariant forall k :: 0 <= k < lo || lo + nmemb <= k < a.Length ==> a[k] == old(a[k])
    {
      ExtractMax(a, lo, nmemb, end, cmp);
      end := end - 1;
    }
    SortedFromOne(cmp, a[lo..lo + nmemb]);
  }
}
