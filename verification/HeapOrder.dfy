/** Heaps in which every node has d children: what binary (d = 2) and ternary (d = 3) heapsort share. */
module HeapOrder {
  import opened Order

  /** In the array layout, the children of p are d*p+1 .. d*p+d. */
  ghost predicate IsChild(d: nat, p: nat, c: nat) {
    d * p < c <= d * p + d
  }

  /** No node of index from or above is smaller than one of its children below to. */
  ghost predicate Heap<T>(cmp: (T, T) -> int, d: nat, s: seq<T>, from: nat, to: nat)
    requires to <= |s|
  {
    forall p: nat, c: nat :: from <= p < c < to && IsChild(d, p, c) ==> cmp(s[p], s[c]) >= 0
  }

  /** x is at least every child of root. */
  ghost predicate Dominates<T>(cmp: (T, T) -> int, d: nat, s: seq<T>, x: T, root: nat, to: nat)
    requires to <= |s|
  {
    forall c: nat :: root < c < to && IsChild(d, root, c) ==> cmp(x, s[c]) >= 0
  }

  /** A heap but for root: root may be too small, though its parent dominates its children. */
  ghost predicate HeapBut<T>(cmp: (T, T) -> int, d: nat, s: seq<T>, from: nat, to: nat, root: nat)
    requires to <= |s|
  {
    && (forall p: nat, c: nat :: from <= p < c < to && p != root && IsChild(d, p, c) ==> cmp(s[p], s[c]) >= 0)
    && (forall p: nat :: from <= p < root && p < to && IsChild(d, p, root) ==> Dominates(cmp, d, s, s[p], root, to))
  }

  function Parent(d: nat, c: nat): nat
    requires d > 0 && c > 0
  {
    if c <= d then 0 else Parent(d, c - d) + 1
  }

  lemma {:induction false} ParentOf(d: nat, c: nat)
    requires d > 0 && c > 0
    ensures Parent(d, c) < c && IsChild(d, Parent(d, c), c)
  {
    if c > d {
      ParentOf(d, c - d);
      var p := Parent(d, c - d);
      assert d * (p + 1) == d * p + d;
    }
  }

  lemma MulStep(d: nat, p: nat, q: nat)
    requires p < q
    ensures d * p + d <= d * q
  {
    assert d * q == d * p + d * (q - p);
    assert d * (q - p) == d + d * (q - p - 1);
  }

  lemma ParentUnique(d: nat, p: nat, q: nat, c: nat)
    requires IsChild(d, p, c) && IsChild(d, q, c)
    ensures p == q
  {
    if p < q { MulStep(d, p, q); }
    if q < p { MulStep(d, q, p); }
  }

  /** The root of a heap is a maximum. */
  lemma {:induction false} RootIsMax<T(!new)>(cmp: (T, T) -> int, d: nat, s: seq<T>, to: nat, i: nat)
    requires TotalPreorder(cmp) && d > 0 && i < to <= |s| && Heap(cmp, d, s, 0, to)
    ensures cmp(s[i], s[0]) <= 0
  {
    if i > 0 {
      ParentOf(d, i);
      RootIsMax(cmp, d, s, to, Parent(d, i));
    }
  }

  lemma SiftStart<T>(cmp: (T, T) -> int, d: nat, s: seq<T>, from: nat, to: nat)
    requires to <= |s| && Heap(cmp, d, s, from + 1, to)
    ensures HeapBut(cmp, d, s, from, to, from)
  {
  }

  /** One turn of the sift loop: exchange root with its largest child. */
  lemma SiftStep<T(!new)>(cmp: (T, T) -> int, d: nat, s: seq<T>, t: seq<T>, from: nat, to: nat, root: nat, child: nat)
    requires TotalPreorder(cmp) && from <= root < child < to <= |s| && IsChild(d, root, child)
    requires HeapBut(cmp, d, s, from, to, root)
    requires cmp(s[root], s[child]) < 0 && Dominates(cmp, d, s, s[child], root, to)
    requires t == s[root := s[child]][child := s[root]]
    ensures HeapBut(cmp, d, t, from, to, child) && Perm(s, t)
  {
    SwapPerm(s, t, root, child);
    forall p: nat, c: nat | from <= p < c < to && p != child && IsChild(d, p, c)
      ensures cmp(t[p], t[c]) >= 0
    {
      if c == child { ParentUnique(d, p, root, c); }
      if c == root { assert Dominates(cmp, d, s, s[p], root, to); }
    }
    forall p: nat | from <= p < child && IsChild(d, p, child) ensures Dominates(cmp, d, t, t[p], child, to) {
      ParentUnique(d, p, root, child);
    }
  }

  method SwapDown<T(!new)>(a: array<T>, lo: nat, ghost nmemb: nat, ghost d: nat, ghost from: nat, ghost to: nat,
                               root: nat,
                           child: nat, cmp: (T, T) -> int)
    requires TotalPreorder(cmp) && lo + nmemb <= a.Length && from <= root < child < to <= nmemb
      && IsChild(d, root, child)
    requires HeapBut(cmp, d, a[lo..lo + nmemb], from, to, root)
    requires cmp(a[lo + root], a[lo + child]) < 0 && Dominates(cmp, d, a[lo..lo + nmemb], a[lo + child], root, to)
    modifies a
    ensures HeapBut(cmp, d, a[lo..lo + nmemb], from, to, child) && Perm(old(a[lo..lo + nmemb]), a[lo..lo + nmemb])
    ensures forall k :: 0 <= k < lo || lo + to <= k < a.Length ==> a[k] == old(a[k])
  {
    hide TotalPreorder, HeapBut, Dominates, Perm, IsChild;
    ghost var s := a[lo..lo + nmemb];
    SwapElements(a, lo + root, lo + child);
    SiftStep(cmp, d, s, a[lo..lo + nmemb], from, to, root, child);
  }

  /** The sift loop may stop at a root that dominates its children. */
  lemma SiftEnd<T>(cmp: (T, T) -> int, d: nat, s: seq<T>, from: nat, to: nat, root: nat)
    requires root < to <= |s| && HeapBut(cmp, d, s, from, to, root) && Dominates(cmp, d, s, s[root], root, to)
    ensures Heap(cmp, d, s, from, to)
  {
  }

  /** From index k on, s is sorted and no element before is greater. */
  ghost predicate SortedFrom<T>(cmp: (T, T) -> int, s: seq<T>, k: nat) {
    forall i, j :: 0 <= i < j < |s| && k <= j ==> cmp(s[i], s[j]) <= 0
  }

  /** Extraction: the maximum goes to the end of the heap, in front of the sorted part. */
  lemma ExtractStep<T(!new)>(cmp: (T, T) -> int, d: nat, s: seq<T>, t: seq<T>, end: nat)
    requires TotalPreorder(cmp) && d > 0 && 0 < end < |s| && |t| == |s|
    requires Heap(cmp, d, s, 0, end + 1) && SortedFrom(cmp, s, end + 1)
    requires t == s[0 := s[end]][end := s[0]]
    ensures Heap(cmp, d, t, 1, end) && SortedFrom(cmp, t, end) && Perm(s, t)
  {
    SwapPerm(s, t, 0, end);
    forall i, j | 0 <= i < j < |t| && end <= j ensures cmp(t[i], t[j]) <= 0 {
      var i' := if i == 0 then end else if i == end then 0 else i;
      if j == end {
        RootIsMax(cmp, d, s, end + 1, i');
      }
    }
  }

  /** Re-sifting the shortened heap permutes it only within itself. */
  lemma ExtractKeeps<T>(cmp: (T, T) -> int, s: seq<T>, t: seq<T>, end: nat)
    requires end <= |s| == |t| && Perm(s, t) && SortedFrom(cmp, s, end)
    requires forall k :: end <= k < |s| ==> t[k] == s[k]
    ensures SortedFrom(cmp, t, end)
  {
    PermPrefix(s, t, end);
    forall i, j | 0 <= i < j < |t| && end <= j ensures cmp(t[i], t[j]) <= 0 {
      if i < end {
        PermMember(t[..end], s[..end], i);
      }
    }
  }

  lemma PermPrefix<T>(s: seq<T>, t: seq<T>, end: nat)
    requires end <= |s| == |t| && Perm(s, t)
    requires forall k :: end <= k < |s| ==> t[k] == s[k]
    ensures Perm(s[..end], t[..end])
  {
    assert s == s[..end] + s[end..] && t == t[..end] + t[end..] && s[end..] == t[end..];
    assert multiset(s[..end]) == multiset(s) - multiset(s[end..]);
    assert multiset(t[..end]) == multiset(t) - multiset(t[end..]);
  }

  lemma ExtractStart<T>(cmp: (T, T) -> int, s: seq<T>)
    ensures SortedFrom(cmp, s, |s|)
  {
  }

  lemma SortedFromOne<T>(cmp: (T, T) -> int, s: seq<T>)
    requires SortedFrom(cmp, s, 1)
    ensures Sorted(cmp, s)
  {
  }
}
