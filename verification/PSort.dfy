/** Parallel sort (posix/lib/psort.c): every interleaving of the threads that the barrier allows.

    Each thread sorts its own segment; then, in rounds of doubling step, thread idx merges the segments of idx and
    idx+step into the slots of idx when idx is a multiple of 2*step. All threads wait at a barrier before each round. */
module ParallelSort {
  import opened Alignment
  import opened FiniteSets
  import opened Merging
  import opened Numbers
  import opened Order
  import opened StableSorting

  // ---------------------------------------------------------------- shared state

  datatype Base = Null | At(slot: nat)

  /** struct sortable_data */
  datatype Segment = Segment(base: Base, nmemb: nat)

  /** Where a thread is, with its local variables. */
  datatype Pc<T> =
    | Sorting(budget: nat)                 // local sort in progress; at most budget more writes to the own segment
    | Arriving(step: nat)                  // about to enter the barrier of round step
    | Waiting(step: nat, gen: nat)         // inside the barrier, entered in generation gen
    | Deciding(step: nat)                  // behind the barrier
    | Merging(step: nat, m: nat, n: nat, left: nat, right: nat, i: nat, j: nat, data: seq<T>)
    | Copying(step: nat, left: nat, data: seq<T>, k: nat)   // own nmemb written; copying merged data back
    | Clearing(step: nat)                  // partner's nmemb cleared, its base not yet
    | Done

  datatype State<T> = State(
    a: seq<T>,
    segments: seq<Segment>,
    pcs: seq<Pc<T>>,
    waits: seq<nat>,       // how often each thread has returned from the barrier
    arrived: nat,          // threads inside the barrier in the current generation
    gen: nat)              // how often the barrier has opened

  /** What psort_r is called with. off holds the start of every segment, and the total as last entry. */
  datatype Config<!T> = Config(cmp: (T, T) -> int, good: (seq<T>, seq<T>) -> bool, input: seq<T>, off: seq<nat>, n: nat)

  ghost predicate ConfigOk<T(!new)>(c: Config<T>) {
    && c.n > 0 && |c.off| == c.n + 1 && c.off[0] == 0 && c.off[c.n] == |c.input|
    && (forall i, j :: 0 <= i <= j <= c.n ==> c.off[i] <= c.off[j])
    && MergeClosed(c.cmp, c.good)
  }

  function Next<T>(c: Config<T>, step: nat): Pc<T> {
    if step < c.n then Arriving(step) else Done
  }

  // ---------------------------------------------------------------- steps

  ghost predicate Init<T>(c: Config<T>, s: State<T>)
    requires |c.off| == c.n + 1
  {
    && s.a == c.input && |s.segments| == |s.pcs| == |s.waits| == c.n && s.arrived == s.gen == 0
    && (forall t :: 0 <= t < c.n ==> s.segments[t].base == At(c.off[t]))
    && (forall t :: 0 <= t < c.n ==> c.off[t] + s.segments[t].nmemb == c.off[t + 1])
    && (forall t :: 0 <= t < c.n ==> s.pcs[t].Sorting? && s.waits[t] == 0)
  }

  /** s' keeps every slot of s outside lo..hi. */
  ghost predicate Writes<T>(s: seq<T>, s': seq<T>, lo: nat, hi: nat) {
    |s'| == |s| && forall p :: 0 <= p < |s| && !(lo <= p < hi) ==> s'[p] == s[p]
  }

  /** The local sort may write anything into its own segment while it runs ... */
  ghost predicate Scribble<T>(c: Config<T>, s: State<T>, s': State<T>, t: nat)
    requires t < |s.pcs| == |s.segments|
  {
    && s.pcs[t].Sorting? && s.pcs[t].budget > 0 && s.segments[t].base.At?
    && Writes(s.a, s'.a, s.segments[t].base.slot, s.segments[t].base.slot + s.segments[t].nmemb)
    && s' == s.(a := s'.a, pcs := s.pcs[t := Sorting(s.pcs[t].budget - 1)])
  }

  /** ... and leaves an acceptable sort of it behind. */
  ghost predicate FinishSort<T>(c: Config<T>, s: State<T>, s': State<T>, t: nat)
    requires t < |s.pcs| == |s.segments|
  {
    && s.pcs[t].Sorting? && s.segments[t].base.At?
    && s' == s.(a := s'.a, pcs := s.pcs[t := Next(c, 1)])
    && var lo := s.segments[t].base.slot;
       var hi := lo + s.segments[t].nmemb;
       hi <= |s.a| && hi <= |c.input| && Writes(s.a, s'.a, lo, hi) && c.good(c.input[lo..hi], s'.a[lo..hi])
  }

  /** pthread_barrier_wait: the last thread to arrive opens the barrier. */
  ghost predicate Arrive<T>(c: Config<T>, s: State<T>, s': State<T>, t: nat)
    requires t < |s.pcs| == |s.waits|
  {
    && s.pcs[t].Arriving?
    && var step := s.pcs[t].step;
       s' == if s.arrived + 1 < c.n
             then s.(arrived := s.arrived + 1, pcs := s.pcs[t := Waiting(step, s.gen)])
             else s.(arrived := 0, gen := s.gen + 1, pcs := s.pcs[t := Deciding(step)],
                     waits := s.waits[t := s.waits[t] + 1])
  }

  ghost predicate Release<T>(c: Config<T>, s: State<T>, s': State<T>, t: nat)
    requires t < |s.pcs| == |s.waits|
  {
    && s.pcs[t].Waiting? && s.gen > s.pcs[t].gen
    && s' == s.(pcs := s.pcs[t := Deciding(s.pcs[t].step)], waits := s.waits[t := s.waits[t] + 1])
  }

  ghost predicate Decide<T>(c: Config<T>, s: State<T>, s': State<T>, t: nat)
    requires t < |s.pcs| == |s.segments|
  {
    && s.pcs[t].Deciding? && s.pcs[t].step > 0
    && var step := s.pcs[t].step; var other := t + step;
       if t % (2 * step) == 0 && other < c.n then
         && other < |s.segments| && s.segments[t].base.At? && s.segments[other].base.At?
         && s' == s.(pcs := s.pcs[t := Merging(step, s.segments[t].nmemb, s.segments[other].nmemb,
                                               s.segments[t].base.slot, s.segments[other].base.slot, 0, 0, [])])
       else s' == s.(pcs := s.pcs[t := Next(c, 2 * step)])
  }

  /** One element moves from the shared array into the thread's private buffer. */
  ghost predicate MergeElement<T>(c: Config<T>, s: State<T>, s': State<T>, t: nat)
    requires t < |s.pcs|
  {
    && s.pcs[t].Merging? && s.pcs[t].i + s.pcs[t].j < s.pcs[t].m + s.pcs[t].n
    && var Merging(step, m, n, left, right, i, j, data) := s.pcs[t];
       (i < m ==> left + i < |s.a|) && (j < n ==> right + j < |s.a|) &&
       s' == s.(pcs := s.pcs[t :=
         if i >= m && j >= n then s.pcs[t]
         else if i >= m then Merging(step, m, n, left, right, i, j + 1, data + [s.a[right + j]])
         else if j >= n then Merging(step, m, n, left, right, i + 1, j, data + [s.a[left + i]])
         else if c.cmp(s.a[left + i], s.a[right + j]) <= 0
         then Merging(step, m, n, left, right, i + 1, j, data + [s.a[left + i]])
         else Merging(step, m, n, left, right, i, j + 1, data + [s.a[right + j]])])
  }

  /** segments[idx].nmemb = total_len */
  ghost predicate SetLength<T>(c: Config<T>, s: State<T>, s': State<T>, t: nat)
    requires t < |s.pcs| == |s.segments|
  {
    && s.pcs[t].Merging? && s.pcs[t].i + s.pcs[t].j >= s.pcs[t].m + s.pcs[t].n
    && var Merging(step, m, n, left, right, i, j, data) := s.pcs[t];
       s' == s.(segments := s.segments[t := s.segments[t].(nmemb := m + n)],
                pcs := s.pcs[t := Copying(step, left, data, 0)])
  }

  /** memcpy of the merged data, element by element */
  ghost predicate CopyElement<T>(c: Config<T>, s: State<T>, s': State<T>, t: nat)
    requires t < |s.pcs|
  {
    && s.pcs[t].Copying? && s.pcs[t].k < |s.pcs[t].data|
    && var Copying(step, left, data, k) := s.pcs[t];
       left + k < |s.a| && s' == s.(a := s.a[left + k := data[k]], pcs := s.pcs[t := Copying(step, left, data, k + 1)])
  }

  /** segments[other_idx].nmemb = 0 */
  ghost predicate ClearLength<T>(c: Config<T>, s: State<T>, s': State<T>, t: nat)
    requires t < |s.pcs| == |s.segments|
  {
    && s.pcs[t].Copying? && s.pcs[t].k >= |s.pcs[t].data|
    && var other := t + s.pcs[t].step;
       other < |s.segments| &&
       s' == s.(segments := s.segments[other := s.segments[other].(nmemb := 0)],
                pcs := s.pcs[t := Clearing(s.pcs[t].step)])
  }

  /** segments[other_idx].base = NULL */
  ghost predicate ClearBase<T>(c: Config<T>, s: State<T>, s': State<T>, t: nat)
    requires t < |s.pcs| == |s.segments|
  {
    && s.pcs[t].Clearing?
    && var other := t + s.pcs[t].step;
       other < |s.segments| &&
       s' == s.(segments := s.segments[other := s.segments[other].(base := Null)],
                pcs := s.pcs[t := Next(c, 2 * s.pcs[t].step)])
  }

  ghost predicate ThreadStep<T>(c: Config<T>, s: State<T>, s': State<T>, t: nat) {
    && t < |s.pcs| == |s.segments| == |s.waits|
    && ( || Scribble(c, s, s', t) || FinishSort(c, s, s', t)
         || Arrive(c, s, s', t) || Release(c, s, s', t) || Decide(c, s, s', t)
         || MergeElement(c, s, s', t) || SetLength(c, s, s', t) || CopyElement(c, s, s', t)
         || ClearLength(c, s, s', t) || ClearBase(c, s, s', t))
  }

  ghost predicate Step<T>(c: Config<T>, s: State<T>, s': State<T>) {
    exists t :: ThreadStep(c, s, s', t)
  }

  // ---------------------------------------------------------------- the invariant

  function Pow2(g: nat): (p: nat)
    ensures p > 0
  {
    if g == 0 then 1 else 2 * Pow2(g - 1)
  }

  /** Half of Pow2(g), and 0 for g = 0: the step of the round before generation g. */
  function Half(g: nat): (h: nat)
    ensures g > 0 ==> h > 0 && 2 * h == Pow2(g)
    ensures g == 0 ==> h == 0
  {
    if g == 0 then 0 else Pow2(g - 1)
  }

  /** The end of the slots of width segments from segment t on. */
  function End<T>(c: Config<T>, t: nat, width: nat): nat
    requires |c.off| == c.n + 1
  {
    c.off[Min(t + width, c.n)]
  }

  /** Segment t covers exactly the slots of the original segments t..t+width, and they are sorted. */
  ghost predicate Covers<T>(c: Config<T>, s: State<T>, t: nat, width: nat)
    requires |c.off| == c.n + 1 && t < c.n == |s.segments|
  {
    var lo, hi := c.off[t], End(c, t, width);
    lo <= hi <= |s.a| && hi <= |c.input| && s.segments[t] == Segment(At(lo), hi - lo)
      && c.good(c.input[lo..hi], s.a[lo..hi])
  }

  /** Before its merge, a leader's two halves are sorted. */
  ghost predicate Halves<T>(c: Config<T>, s: State<T>, t: nat, half: nat)
    requires |c.off| == c.n + 1 && t < c.n == |s.segments|
  {
    Covers(c, s, t, half) && (t + half < c.n ==> Covers(c, s, t + half, half))
  }

  /** A merge in progress: the buffer holds the merge of what has been consumed. */
  ghost predicate MergingOk<T>(c: Config<T>, s: State<T>, t: nat)
    requires |c.off| == c.n + 1 && t < c.n == |s.pcs| && s.pcs[t].Merging?
  {
    var half := Half(s.gen);
    var Merging(_, m, n, left, right, i, j, data) := s.pcs[t];
    && t + half < c.n && left == c.off[t] && right == c.off[t + half] == left + m
      && right + n == End(c, t, Pow2(s.gen)) <= |s.a|
    && i <= m && j <= n && Merged(c.cmp, s.a[left..left + m], s.a[right..right + n], i, j, data)
  }

  /** A copy in progress: the first k slots hold the merged data. */
  ghost predicate CopyingOk<T>(c: Config<T>, s: State<T>, t: nat)
    requires |c.off| == c.n + 1 && t < c.n == |s.pcs| == |s.segments| && s.pcs[t].Copying?
  {
    var Copying(_, left, data, k) := s.pcs[t];
    && left == c.off[t] && left + |data| == End(c, t, Pow2(s.gen)) <= |s.a| == |c.input| && k <= |data|
    && s.segments[t] == Segment(At(left), |data|) && c.good(c.input[left..left + |data|], data)
    && forall p :: left <= p < left + k ==> s.a[p] == data[p - left]
  }

  /** The segments of a group of Pow2(gen), by what its leader t is doing. */
  ghost predicate GroupOk<T>(c: Config<T>, s: State<T>, t: nat)
    requires |c.off| == c.n + 1 && t < c.n == |s.segments| == |s.pcs|
  {
    var width := Pow2(s.gen);
    var half := Half(s.gen);
    match s.pcs[t]
    case Sorting(_) =>
      c.off[t] <= End(c, t, width) && s.segments[t] == Segment(At(c.off[t]), End(c, t, width) - c.off[t])
    case Deciding(_) => Halves(c, s, t, half)
    case Waiting(_, g) => if g == s.gen then Covers(c, s, t, width) else Halves(c, s, t, half)
    case Merging(_, _, _, _, _, _, _, _) => t + half < c.n && Halves(c, s, t, half) && MergingOk(c, s, t)
    case Copying(_, _, _, _) => t + half < c.n && CopyingOk(c, s, t)
    case Clearing(_) => t + half < c.n && Covers(c, s, t, width)
    case Arriving(_) => Covers(c, s, t, width)
    case Done => Covers(c, s, t, width)
  }

  /** Where thread t can be while the barrier is in generation gen. */
  ghost predicate PcOk<T>(c: Config<T>, s: State<T>, t: nat)
    requires t < |s.pcs| == |s.waits|
  {
    var width := Pow2(s.gen);
    match s.pcs[t]
    case Sorting(_) => s.gen == 0 && s.waits[t] == 0
    case Arriving(step) => step == width < c.n && s.waits[t] == s.gen
    case Waiting(step, g) => (g == s.gen || g + 1 == s.gen) && step == Pow2(g) < c.n && s.waits[t] == g
    case Deciding(step) => s.gen > 0 && 2 * step == width && s.waits[t] == s.gen
    case Merging(step, _, _, _, _, _, _, _) =>
      s.gen > 0 && 2 * step == width && Aligned(t, width) && s.waits[t] == s.gen
    case Copying(step, _, _, _) => s.gen > 0 && 2 * step == width && Aligned(t, width) && s.waits[t] == s.gen
    case Clearing(step) => s.gen > 0 && 2 * step == width && Aligned(t, width) && s.waits[t] == s.gen
    case Done => c.n <= width && s.waits[t] == s.gen
  }

  ghost function Inside<T>(s: State<T>): set<nat> {
    set t: nat | t < |s.pcs| && s.pcs[t].Waiting? && s.pcs[t].gen == s.gen
  }

  ghost predicate Inv<T(!new)>(c: Config<T>, s: State<T>) {
    && ConfigOk(c) && |s.a| == |c.input| && |s.segments| == |s.pcs| == |s.waits| == c.n
    && (s.gen > 0 ==> Pow2(s.gen) < 2 * c.n)
    && |Inside(s)| == s.arrived < c.n
    && (forall t: nat :: t < c.n ==> PcOk(c, s, t))
    && (forall t: nat :: t < c.n && Aligned(t, Pow2(s.gen)) ==> GroupOk(c, s, t))
  }

  // ---------------------------------------------------------------- every step keeps the invariant

  /** s' agrees with s on everything that belongs to the group of u. */
  ghost predicate SameGroup<T>(c: Config<T>, s: State<T>, s': State<T>, u: nat)
    requires |c.off| == c.n + 1 && u < c.n == |s.segments| == |s.pcs|
  {
    && |s'.a| == |s.a| && |s'.segments| == |s'.pcs| == c.n && s'.gen == s.gen && s'.pcs[u] == s.pcs[u]
    && (forall p :: c.off[u] <= p < End(c, u, Pow2(s.gen)) && p < |s.a| ==> s'.a[p] == s.a[p])
    && s'.segments[u] == s.segments[u]
    && (u + Half(s.gen) < c.n ==> s'.segments[u + Half(s.gen)] == s.segments[u + Half(s.gen)])
  }

  /** What GroupOk says about u depends on the slots and segments of u's group only. */
  lemma GroupFrame<T(!new)>(c: Config<T>, s: State<T>, s': State<T>)
    requires ConfigOk(c) && c.n == |s.segments| == |s.pcs|
    ensures forall u: nat :: u < c.n && SameGroup(c, s, s', u) && GroupOk(c, s, u) ==> GroupOk(c, s', u)
  {
    hide Pow2, Half, Covers, MergingOk, CopyingOk;
    var width := Pow2(s.gen);
    var half := Half(s.gen);
    forall u: nat | u < c.n && SameGroup(c, s, s', u) && GroupOk(c, s, u) ensures GroupOk(c, s', u) {
      assert c.off[u] <= End(c, u, half) <= End(c, u, width);
      assert u + half < c.n ==> c.off[u] <= c.off[u + half] && End(c, u + half, half) <= End(c, u, width);
      CoversFrame(c, s, s', u, width);
      CoversFrame(c, s, s', u, half);
      if u + half < c.n { CoversFrame(c, s, s', u + half, half); }
      if s.pcs[u].Merging? { MergingFrame(c, s, s', u); }
      if s.pcs[u].Copying? { CopyingFrame(c, s, s', u); }
    }
  }

  lemma MergingFrame<T(!new)>(c: Config<T>, s: State<T>, s': State<T>, u: nat)
    requires ConfigOk(c) && u < c.n == |s.segments| == |s.pcs| && s.pcs[u].Merging? && SameGroup(c, s, s', u)
    requires MergingOk(c, s, u)
    ensures MergingOk(c, s', u)
  {
    hide Merged;
    var Merging(_, m, n, left, right, i, j, data) := s.pcs[u];
    assert s'.a[left..left + m] == s.a[left..left + m] && s'.a[right..right + n] == s.a[right..right + n];
  }

  lemma CopyingFrame<T(!new)>(c: Config<T>, s: State<T>, s': State<T>, u: nat)
    requires ConfigOk(c) && u < c.n == |s.segments| == |s.pcs| && s.pcs[u].Copying? && SameGroup(c, s, s', u)
    requires CopyingOk(c, s, u)
    ensures CopyingOk(c, s', u)
  {
  }

  lemma CoversFrame<T(!new)>(c: Config<T>, s: State<T>, s': State<T>, t: nat, width: nat)
    requires |c.off| == c.n + 1 && t < c.n == |s.segments| == |s'.segments| && |s'.a| == |s.a|
    requires forall p :: c.off[t] <= p < End(c, t, width) ==> 0 <= p < |s.a| ==> s'.a[p] == s.a[p]
    requires s'.segments[t] == s.segments[t]
    ensures Covers(c, s, t, width) ==> Covers(c, s', t, width)
  {
    if Covers(c, s, t, width) {
      var lo, hi := c.off[t], End(c, t, width);
      assert s'.a[lo..hi] == s.a[lo..hi];
    }
  }

  /** s' differs from s only in what belongs to thread t and, if t leads a group, to that group. */
  ghost predicate OwnOnly<T>(c: Config<T>, s: State<T>, s': State<T>, t: nat)
    requires |c.off| == c.n + 1 && t < c.n == |s.segments| == |s.pcs| == |s.waits|
  {
    && |s'.a| == |s.a| && |s'.segments| == |s'.pcs| == |s'.waits| == c.n && s'.gen == s.gen
    && (forall u :: 0 <= u < c.n && u != t ==> s'.pcs[u] == s.pcs[u] && s'.waits[u] == s.waits[u])
    && Writes(s.a, s'.a, c.off[t], End(c, t, Pow2(s.gen)))
    && (forall u :: 0 <= u < c.n && u != t && u != t + Half(s.gen) ==> s'.segments[u] == s.segments[u])
    && (!Aligned(t, Pow2(s.gen)) ==> s'.a == s.a && s'.segments == s.segments)
  }

  lemma OthersSame<T(!new)>(c: Config<T>, s: State<T>, s': State<T>, t: nat, u: nat)
    requires ConfigOk(c) && t < c.n == |s.segments| == |s.pcs| == |s.waits| && OwnOnly(c, s, s', t)
    requires u < c.n && u != t && Aligned(u, Pow2(s.gen))
    ensures SameGroup(c, s, s', u)
  {
    var width := Pow2(s.gen);
    if Aligned(t, width) {
      if t < u { AlignedGap(t, u, width); } else { AlignedGap(u, t, width); }
    }
  }

  /** A step of thread t within one barrier generation keeps the invariant if it does so for thread t. */
  lemma Preserve<T(!new)>(c: Config<T>, s: State<T>, s': State<T>, t: nat)
    requires Inv(c, s) && t < c.n && OwnOnly(c, s, s', t)
    requires PcOk(c, s', t) && (Aligned(t, Pow2(s.gen)) ==> GroupOk(c, s', t))
    requires |Inside(s')| == s'.arrived < c.n
    ensures Inv(c, s')
  {
    var width := Pow2(s.gen);
    forall u: nat | u < c.n ensures PcOk(c, s', u) {
      assert PcOk(c, s, u);
    }
    GroupFrame(c, s, s');
    hide PcOk, GroupOk, ConfigOk;
    forall u: nat | u < c.n && Aligned(u, width) ensures GroupOk(c, s', u) {
      if u != t {
        assert GroupOk(c, s, u);
        OthersSame(c, s, s', t, u);
      }
    }
  }

  /** Steps that neither enter nor leave the barrier keep the count of threads inside. */
  lemma InsideSame<T(!new)>(c: Config<T>, s: State<T>, s': State<T>, t: nat)
    requires Inv(c, s) && t < c.n && OwnOnly(c, s, s', t) && s'.arrived == s.arrived
    requires !(s.pcs[t].Waiting? && s.pcs[t].gen == s.gen) && !(s'.pcs[t].Waiting? && s'.pcs[t].gen == s.gen)
    ensures |Inside(s')| == s'.arrived < c.n
  {
    assert Inside(s') == Inside(s);
  }

  lemma KeepScribble<T(!new)>(c: Config<T>, s: State<T>, s': State<T>)
    requires Inv(c, s)
    ensures forall t: nat :: t < c.n && Scribble(c, s, s', t) ==> Inv(c, s')
  {
    forall t: nat | t < c.n && Scribble(c, s, s', t) ensures Inv(c, s') {
      assert PcOk(c, s, t) && Aligned(t, 1) by { AlignedOne(t); }
      assert GroupOk(c, s, t);
      InsideSame(c, s, s', t);
      Preserve(c, s, s', t);
    }
  }

  lemma {:induction false} AlignedOne(t: nat)
    ensures Aligned(t, 1)
  {
    if t > 0 { AlignedOne(t - 1); }
  }

  lemma KeepFinishSort<T(!new)>(c: Config<T>, s: State<T>, s': State<T>)
    requires Inv(c, s)
    ensures forall t: nat :: t < c.n && FinishSort(c, s, s', t) ==> Inv(c, s')
  {
    forall t: nat | t < c.n && FinishSort(c, s, s', t) ensures Inv(c, s') {
      assert PcOk(c, s, t) && Aligned(t, 1) by { AlignedOne(t); }
      assert GroupOk(c, s, t);
      InsideSame(c, s, s', t);
      assert Covers(c, s', t, 1);
      Preserve(c, s, s', t);
    }
  }

  lemma KeepRelease<T(!new)>(c: Config<T>, s: State<T>, s': State<T>)
    requires Inv(c, s)
    ensures forall t: nat :: t < c.n && Release(c, s, s', t) ==> Inv(c, s')
  {
    forall t: nat | t < c.n && Release(c, s, s', t) ensures Inv(c, s') {
      assert PcOk(c, s, t) && ConfigOk(c);
      SameLengths(c, s);
      if Aligned(t, Pow2(s.gen)) { ReleaseGroup(c, s, s', t); }
      hide Inv, GroupOk, OwnOnly, ConfigOk, Release, PcOk;
      ReleaseOwn(c, s, s', t);
      InsideSame(c, s, s', t);
      Preserve(c, s, s', t);
    }
  }

  lemma ReleaseOwn<T(!new)>(c: Config<T>, s: State<T>, s': State<T>, t: nat)
    requires ConfigOk(c) && t < c.n == |s.segments| == |s.pcs| == |s.waits| && Release(c, s, s', t) && PcOk(c, s, t)
    ensures OwnOnly(c, s, s', t) && PcOk(c, s', t) && s'.arrived == s.arrived
    ensures s.pcs[t].Waiting? && s.pcs[t].gen != s.gen && !s'.pcs[t].Waiting?
  {
  }

  lemma ReleaseGroup<T(!new)>(c: Config<T>, s: State<T>, s': State<T>, t: nat)
    requires Inv(c, s) && t < c.n && Release(c, s, s', t) && Aligned(t, Pow2(s.gen))
    ensures GroupOk(c, s', t)
  {
    assert GroupOk(c, s, t);
    HalvesFrame(c, s, s', t);
    hide Inv, Halves, Covers, Pow2, Half;
  }

  lemma HalvesFrame<T(!new)>(c: Config<T>, s: State<T>, s': State<T>, t: nat)
    requires ConfigOk(c) && t < c.n == |s.segments| && s'.a == s.a && s'.segments == s.segments
    ensures forall half :: Halves(c, s, t, half) ==> Halves(c, s', t, half)
  {
  }

  lemma KeepDecide<T(!new)>(c: Config<T>, s: State<T>, s': State<T>)
    requires Inv(c, s)
    ensures forall t: nat :: t < c.n && Decide(c, s, s', t) ==> Inv(c, s')
  {
    forall t: nat | t < c.n && Decide(c, s, s', t) ensures Inv(c, s') {
      var width := Pow2(s.gen);
      assert PcOk(c, s, t);
      AlignedMod(t, width);
      InsideSame(c, s, s', t);
      LeaderHalves(c, s, t);
      if Aligned(t, width) { DecideGroup(c, s, s', t); }
      hide GroupOk, Halves;
      Preserve(c, s, s', t);
    }
  }

  lemma DecideGroup<T(!new)>(c: Config<T>, s: State<T>, s': State<T>, t: nat)
    requires ConfigOk(c) && t < c.n == |s.segments| == |s.pcs| == |s.waits| && Decide(c, s, s', t)
    requires s.gen > 0 && 2 * s.pcs[t].step == Pow2(s.gen) && t % Pow2(s.gen) == 0 && Halves(c, s, t, s.pcs[t].step)
    ensures GroupOk(c, s', t)
  {
    HalvesFrame(c, s, s', t);
    var step := s.pcs[t].step;
    if t + step < c.n {
      DecideMerge(c, s, s', t);
      assert s'.gen == s.gen;
      hide Covers, MergingOk, Halves, Pow2, Half, ConfigOk, Decide, GroupOk;
      MergingGroup(c, s', t);
    } else {
      assert s'.gen == s.gen && (s'.pcs[t].Arriving? || s'.pcs[t].Done?);
      hide Halves, Pow2, Half, ConfigOk, Decide, GroupOk, Covers;
      WholeHalf(c, s', t, step);
      WholeGroup(c, s', t);
    }
  }

  lemma MergingGroup<T>(c: Config<T>, s: State<T>, t: nat)
    requires |c.off| == c.n + 1 && t < c.n == |s.segments| == |s.pcs| && t + Half(s.gen) < c.n
    requires s.pcs[t].Merging? && Halves(c, s, t, Half(s.gen)) && MergingOk(c, s, t)
    ensures GroupOk(c, s, t)
  {
    hide Halves, MergingOk, Pow2, Half;
  }

  lemma WholeHalf<T(!new)>(c: Config<T>, s: State<T>, t: nat, half: nat)
    requires |c.off| == c.n + 1 && t < c.n == |s.segments| && t + half >= c.n && Halves(c, s, t, half)
    ensures Covers(c, s, t, 2 * half)
  {
  }

  lemma DecideMerge<T(!new)>(c: Config<T>, s: State<T>, s': State<T>, t: nat)
    requires ConfigOk(c) && t < c.n == |s.segments| == |s.pcs| == |s.waits| && Decide(c, s, s', t)
    requires s.gen > 0 && 2 * s.pcs[t].step == Pow2(s.gen) && t + s.pcs[t].step < c.n && t % Pow2(s.gen) == 0
    requires Halves(c, s, t, s.pcs[t].step)
    ensures s'.pcs[t].Merging? && MergingOk(c, s', t)
  {
    var half := s.pcs[t].step;
    assert Covers(c, s, t, half) && Covers(c, s, t + half, half);
    var lo, mid, hi := c.off[t], c.off[t + half], End(c, t, 2 * half);
    MergedNone(c.cmp, s.a[lo..mid], s.a[mid..hi]);
  }

  lemma KeepMergeElement<T(!new)>(c: Config<T>, s: State<T>, s': State<T>)
    requires Inv(c, s)
    ensures forall t: nat :: t < c.n && MergeElement(c, s, s', t) ==> Inv(c, s')
  {
    forall t: nat | t < c.n && MergeElement(c, s, s', t) ensures Inv(c, s') {
      LeaderPlace(c, s, t);
      SameLengths(c, s);
      assert GroupOk(c, s, t);
      hide Inv, Halves, MergingOk, CopyingOk, Covers, MergeElement, OwnOnly, Pow2, Half;
      MergeElementOwn(c, s, s', t);
      MergeAdvances(c, s, s', t);
      HalvesFrame(c, s, s', t);
      GoesOnMerging(c, s', t);
      hide PcOk, GroupOk;
      InsideSame(c, s, s', t);
      Preserve(c, s, s', t);
    }
  }

  lemma MergeElementOwn<T(!new)>(c: Config<T>, s: State<T>, s': State<T>, t: nat)
    requires ConfigOk(c) && t < c.n == |s.segments| == |s.pcs| == |s.waits| && MergeElement(c, s, s', t)
    ensures OwnOnly(c, s, s', t) && s' == s.(pcs := s'.pcs) && |s'.pcs| == c.n
    ensures s'.pcs[t].Merging? && s'.pcs[t].step == s.pcs[t].step && s.pcs[t].Merging?
  {
    hide Pow2, Half;
  }

  lemma GoesOnMerging<T(!new)>(c: Config<T>, s: State<T>, t: nat)
    requires |c.off| == c.n + 1 && t < c.n == |s.segments| == |s.pcs| == |s.waits|
    requires s.pcs[t].Merging? && MergingOk(c, s, t) && t + Half(s.gen) < c.n && Halves(c, s, t, Half(s.gen))
    requires s.gen > 0 && 2 * s.pcs[t].step == Pow2(s.gen) && Aligned(t, Pow2(s.gen)) && s.waits[t] == s.gen
    ensures PcOk(c, s, t) && GroupOk(c, s, t)
  {
    hide MergingOk, Halves, Pow2, Half, Aligned;
  }

  lemma MergeAdvances<T(!new)>(c: Config<T>, s: State<T>, s': State<T>, t: nat)
    requires ConfigOk(c) && t < c.n == |s.segments| == |s.pcs| == |s.waits| && MergeElement(c, s, s', t)
    requires MergingOk(c, s, t)
    ensures s'.pcs[t].Merging? && MergingOk(c, s', t)
  {
    hide Merged, ConfigOk, Merge;
    var Merging(step, m, n, left, right, i, j, data) := s.pcs[t];
    var x, y := s.a[left..left + m], s.a[right..right + n];
    assert i < m ==> x[i] == s.a[left + i];
    assert j < n ==> y[j] == s.a[right + j];
    TakeNext(c.cmp, x, y, i, j, data);
  }

  /** Whichever element the merge loop takes next, the buffer stays the merge of what was consumed. */
  lemma TakeNext<T>(cmp: (T, T) -> int, x: seq<T>, y: seq<T>, i: nat, j: nat, data: seq<T>)
    requires i <= |x| && j <= |y| && Merged(cmp, x, y, i, j, data)
    ensures j < |y| && (i == |x| || cmp(x[i], y[j]) > 0) ==> Merged(cmp, x, y, i, j + 1, data + [y[j]])
    ensures i < |x| && (j == |y| || cmp(x[i], y[j]) <= 0) ==> Merged(cmp, x, y, i + 1, j, data + [x[i]])
  {
    hide Merged;
    if i < |x| && j < |y| {
      MergeStep(cmp, x, y, i, j, data);
    } else {
      MergeTail(cmp, x, y, i, j, data);
    }
  }

  lemma KeepSetLength<T(!new)>(c: Config<T>, s: State<T>, s': State<T>)
    requires Inv(c, s)
    ensures forall t: nat :: t < c.n && SetLength(c, s, s', t) ==> Inv(c, s')
  {
    forall t: nat | t < c.n && SetLength(c, s, s', t) ensures Inv(c, s') {
      LeaderPlace(c, s, t);
      SameLengths(c, s);
      assert GroupOk(c, s, t);
      hide Inv, Halves, MergingOk, CopyingOk, Covers, SetLength, OwnOnly, Pow2, Half;
      MergeComplete(c, s, s', t);
      SetLengthOwn(c, s, s', t);
      CopyingLeader(c, s', t);
      hide PcOk, GroupOk;
      InsideSame(c, s, s', t);
      Preserve(c, s, s', t);
    }
  }

  lemma CopyingLeader<T(!new)>(c: Config<T>, s: State<T>, t: nat)
    requires |c.off| == c.n + 1 && t < c.n == |s.segments| == |s.pcs| == |s.waits|
    requires s.pcs[t].Copying? && CopyingOk(c, s, t) && t + Half(s.gen) < c.n
    requires s.gen > 0 && 2 * s.pcs[t].step == Pow2(s.gen) && Aligned(t, Pow2(s.gen)) && s.waits[t] == s.gen
    ensures PcOk(c, s, t) && GroupOk(c, s, t)
  {
    hide CopyingOk, Pow2, Half, Aligned;
  }

  lemma LeaderPlace<T(!new)>(c: Config<T>, s: State<T>, t: nat)
    requires Inv(c, s) && t < c.n && (s.pcs[t].Merging? || s.pcs[t].Copying? || s.pcs[t].Clearing?)
    ensures ConfigOk(c) && s.gen > 0 && Aligned(t, Pow2(s.gen)) && t + Half(s.gen) < c.n && s.waits[t] == s.gen
    ensures 2 * s.pcs[t].step == Pow2(s.gen)
  {
    assert PcOk(c, s, t) && GroupOk(c, s, t);
    hide Halves, MergingOk, Pow2, Half;
  }

  lemma SetLengthOwn<T(!new)>(c: Config<T>, s: State<T>, s': State<T>, t: nat)
    requires ConfigOk(c) && t < c.n == |s.segments| == |s.pcs| == |s.waits| && SetLength(c, s, s', t)
    requires Aligned(t, Pow2(s.gen))
    ensures OwnOnly(c, s, s', t) && s'.arrived == s.arrived && s'.waits == s.waits
    ensures s'.pcs[t].Copying? && s'.pcs[t].step == s.pcs[t].step && s.pcs[t].Merging?
  {
    hide Pow2, Half;
  }

  lemma MergeComplete<T(!new)>(c: Config<T>, s: State<T>, s': State<T>, t: nat)
    requires ConfigOk(c) && t < c.n == |s.segments| == |s.pcs| == |s.waits| && |s.a| == |c.input|
      && SetLength(c, s, s', t)
    requires s.gen > 0 && Halves(c, s, t, Half(s.gen)) && MergingOk(c, s, t)
    ensures s'.pcs[t].Copying? && CopyingOk(c, s', t)
  {
    BufferGood(c, s, t);
    hide MergingOk, Halves, Pow2, Half, End, ConfigOk;
  }

  /** When everything is consumed, the buffer holds an acceptable sort of the group's input. */
  lemma BufferGood<T(!new)>(c: Config<T>, s: State<T>, t: nat)
    requires ConfigOk(c) && t < c.n == |s.segments| == |s.pcs| && |s.a| == |c.input| && s.gen > 0
    requires s.pcs[t].Merging? && Halves(c, s, t, Half(s.gen)) && MergingOk(c, s, t)
    requires s.pcs[t].i + s.pcs[t].j >= s.pcs[t].m + s.pcs[t].n
    ensures var Merging(_, m, n, left, right, i, j, data) := s.pcs[t];
      && left == c.off[t] && s.segments[t].base == At(left) && |data| == m + n
      && left + |data| == End(c, t, Pow2(s.gen)) <= |s.a| && c.good(c.input[left..left + |data|], data)
  {
    HalvesGood(c, s, t);
    var Merging(_, m, n, left, right, i, j, data) := s.pcs[t];
    AllConsumed(c, s, t);
    hide MergingOk, Halves, Pow2, Half, End, Merged, ConfigOk;
    MergedGood(c, s.a[left..left + m], s.a[right..right + n], data, left, right, right + n);
  }

  lemma AllConsumed<T>(c: Config<T>, s: State<T>, t: nat)
    requires |c.off| == c.n + 1 && t < c.n == |s.pcs| && s.pcs[t].Merging? && MergingOk(c, s, t)
    requires s.pcs[t].i + s.pcs[t].j >= s.pcs[t].m + s.pcs[t].n
    ensures var Merging(_, m, n, left, right, i, j, data) := s.pcs[t];
      && left == c.off[t] && i == m && j == n && left + m <= |s.a| && right + n <= |s.a|
      && Merged(c.cmp, s.a[left..left + m], s.a[right..right + n], m, n, data)
  {
    hide Merged, Pow2, Half, End;
  }

  lemma HalvesGood<T(!new)>(c: Config<T>, s: State<T>, t: nat)
    requires ConfigOk(c) && t < c.n == |s.segments| == |s.pcs| && |s.a| == |c.input| && s.gen > 0
    requires s.pcs[t].Merging? && Halves(c, s, t, Half(s.gen)) && MergingOk(c, s, t)
    ensures var Merging(_, m, n, left, right, _, _, _) := s.pcs[t];
      && left + m == right && right + n == End(c, t, Pow2(s.gen)) <= |s.a| && s.segments[t].base == At(left)
      && c.good(c.input[left..right], s.a[left..left + m]) && c.good(c.input[right..right + n], s.a[right..right + n])
  {
    hide Merged, Pow2, Half;
    var half := Half(s.gen);
    HalfEnds(c, t, s.gen);
    assert Covers(c, s, t, half) && Covers(c, s, t + half, half);
    hide End;
  }

  /** The second half of a group ends where the group ends. */
  lemma HalfEnds<T>(c: Config<T>, t: nat, g: nat)
    requires |c.off| == c.n + 1 && g > 0
    ensures End(c, t + Half(g), Half(g)) == End(c, t, Pow2(g))
    ensures t + Half(g) <= c.n ==> End(c, t, Half(g)) == c.off[t + Half(g)]
  {
    hide Pow2, Half;
  }

  lemma MergedGood<T(!new)>(c: Config<T>, x: seq<T>, y: seq<T>, data: seq<T>, lo: nat, mid: nat, hi: nat)
    requires ConfigOk(c) && lo <= mid <= hi <= |c.input|
    requires c.good(c.input[lo..mid], x) && c.good(c.input[mid..hi], y)
    requires Merged(c.cmp, x, y, |x|, |y|, data)
    ensures c.good(c.input[lo..hi], data) && |data| == |x| + |y|
  {
    hide Merge;
    MergedAll(c.cmp, x, y, data);
    assert ClosedAt(c.cmp, c.good, c.input[lo..mid], x, c.input[mid..hi], y);
    assert c.input[lo..mid] + c.input[mid..hi] == c.input[lo..hi];
  }

  lemma KeepCopyElement<T(!new)>(c: Config<T>, s: State<T>, s': State<T>)
    requires Inv(c, s)
    ensures forall t: nat :: t < c.n && CopyElement(c, s, s', t) ==> Inv(c, s')
  {
    forall t: nat | t < c.n && CopyElement(c, s, s', t) ensures Inv(c, s') {
      assert PcOk(c, s, t);
      assert GroupOk(c, s, t);
      InsideSame(c, s, s', t);
      Preserve(c, s, s', t);
    }
  }

  lemma KeepClearLength<T(!new)>(c: Config<T>, s: State<T>, s': State<T>)
    requires Inv(c, s)
    ensures forall t: nat :: t < c.n && ClearLength(c, s, s', t) ==> Inv(c, s')
  {
    forall t: nat | t < c.n && ClearLength(c, s, s', t) ensures Inv(c, s') {
      LeaderPlace(c, s, t);
      SameLengths(c, s);
      assert GroupOk(c, s, t);
      hide Inv, CopyingOk, Covers, ClearLength, OwnOnly, Pow2, Half;
      ClearLengthOwn(c, s, s', t);
      WholeGroup(c, s', t);
      assert PcOk(c, s', t);
      hide PcOk, GroupOk;
      InsideSame(c, s, s', t);
      Preserve(c, s, s', t);
    }
  }

  lemma ClearLengthOwn<T(!new)>(c: Config<T>, s: State<T>, s': State<T>, t: nat)
    requires ConfigOk(c) && t < c.n == |s.segments| == |s.pcs| == |s.waits| && ClearLength(c, s, s', t)
    requires CopyingOk(c, s, t) && Aligned(t, Pow2(s.gen)) && s.gen > 0 && 2 * s.pcs[t].step == Pow2(s.gen)
    ensures OwnOnly(c, s, s', t) && s'.arrived == s.arrived && s'.waits == s.waits && s'.gen == s.gen
    ensures s'.pcs[t].Clearing? && s'.pcs[t].step == s.pcs[t].step && s.pcs[t].Copying?
    ensures Covers(c, s', t, Pow2(s.gen))
  {
    var Copying(step, left, data, k) := s.pcs[t];
    assert s'.a[left..left + |data|] == data;
    hide Pow2, Half, ConfigOk;
  }

  /** The group of a leader whose segment covers all of it. */
  lemma WholeGroup<T>(c: Config<T>, s: State<T>, t: nat)
    requires |c.off| == c.n + 1 && t < c.n == |s.segments| == |s.pcs| && Covers(c, s, t, Pow2(s.gen))
    requires s.pcs[t].Arriving? || s.pcs[t].Done? || (s.pcs[t].Clearing? && t + Half(s.gen) < c.n)
    ensures GroupOk(c, s, t)
  {
    hide Covers, Pow2, Half;
  }

  lemma KeepClearBase<T(!new)>(c: Config<T>, s: State<T>, s': State<T>)
    requires Inv(c, s)
    ensures forall t: nat :: t < c.n && ClearBase(c, s, s', t) ==> Inv(c, s')
  {
    forall t: nat | t < c.n && ClearBase(c, s, s', t) ensures Inv(c, s') {
      assert PcOk(c, s, t);
      assert GroupOk(c, s, t);
      InsideSame(c, s, s', t);
      assert Covers(c, s', t, Pow2(s.gen));
      Preserve(c, s, s', t);
    }
  }

  lemma KeepEnter<T(!new)>(c: Config<T>, s: State<T>, s': State<T>, t: nat)
    requires Inv(c, s) && t < c.n && Arrive(c, s, s', t) && s.arrived + 1 < c.n
    ensures Inv(c, s')
  {
    assert PcOk(c, s, t);
    assert Inside(s') == Inside(s) + {t};
    if Aligned(t, Pow2(s.gen)) {
      assert GroupOk(c, s, t);
      assert Covers(c, s', t, Pow2(s.gen));
    }
    Preserve(c, s, s', t);
  }

  /** When the last thread arrives, all others are inside, so every group is sorted and becomes half of a larger one. */
  lemma AllInside<T(!new)>(c: Config<T>, s: State<T>, t: nat, u: nat)
    requires Inv(c, s) && t < c.n && u < c.n && s.pcs[t].Arriving? && s.arrived + 1 >= c.n && u != t
    ensures s.pcs[u].Waiting? && s.pcs[u].gen == s.gen
  {
    var all := SlotsBelow(c.n);
    assert t !in Inside(s);
    SubsetCard(Inside(s) + {t}, all);
    assert u in all;
  }

  lemma OpenCovers<T(!new)>(c: Config<T>, s: State<T>, s': State<T>, t: nat, u: nat)
    requires Inv(c, s) && t < c.n && Arrive(c, s, s', t) && s.arrived + 1 >= c.n
    requires u < c.n && Aligned(u, Pow2(s.gen))
    ensures Covers(c, s', u, Pow2(s.gen))
  {
    if u != t { AllInside(c, s, t, u); }
    assert GroupOk(c, s, u);
  }

  lemma OpenGroups<T(!new)>(c: Config<T>, s: State<T>, s': State<T>, t: nat)
    requires Inv(c, s) && t < c.n && Arrive(c, s, s', t) && s.arrived + 1 >= c.n
    ensures forall u: nat :: u < c.n && Aligned(u, 2 * Pow2(s.gen)) ==> GroupOk(c, s', u)
  {
    hide Covers, GroupOk, PcOk;
    var width := Pow2(s.gen);
    forall u: nat | u < c.n && Aligned(u, 2 * width) ensures GroupOk(c, s', u) {
      AlignedDouble(u, width);
      OpenCovers(c, s, s', t, u);
      if u + width < c.n { OpenCovers(c, s, s', t, u + width); }
      if u != t { AllInside(c, s, t, u); }
      NextRound(c, s', u, width);
    }
  }

  lemma NextRound<T>(c: Config<T>, s: State<T>, u: nat, width: nat)
    requires |c.off| == c.n + 1 && u < c.n == |s.segments| == |s.pcs| && Pow2(s.gen) == 2 * width
    requires Covers(c, s, u, width) && (u + width < c.n ==> Covers(c, s, u + width, width))
    requires s.pcs[u].Deciding? || (s.pcs[u].Waiting? && s.pcs[u].gen != s.gen)
    ensures GroupOk(c, s, u)
  {
  }

  lemma OpenPcs<T(!new)>(c: Config<T>, s: State<T>, s': State<T>, t: nat)
    requires Inv(c, s) && t < c.n && Arrive(c, s, s', t) && s.arrived + 1 >= c.n
    ensures forall u: nat :: u < c.n ==> PcOk(c, s', u) && !(s'.pcs[u].Waiting? && s'.pcs[u].gen == s'.gen)
  {
    forall u: nat | u < c.n ensures PcOk(c, s', u) && !(s'.pcs[u].Waiting? && s'.pcs[u].gen == s'.gen) {
      if u != t { AllInside(c, s, t, u); }
      assert PcOk(c, s, u);
    }
  }

  /** When the barrier opens all other threads wait at it, and every group of the round that ends is sorted in place. */
  lemma KeepOpen<T(!new)>(c: Config<T>, s: State<T>, s': State<T>)
    requires Inv(c, s) && s.arrived + 1 >= c.n
    ensures forall t: nat :: t < c.n && Arrive(c, s, s', t) ==>
      && Inv(c, s') && s'.gen == s.gen + 1
      && (forall u: nat :: u < c.n && u != t ==> s.pcs[u].Waiting? && s.pcs[u].gen == s.gen)
      && (forall u: nat :: u < c.n && Aligned(u, Pow2(s.gen)) ==> Covers(c, s', u, Pow2(s.gen)))
  {
    forall t: nat | t < c.n && Arrive(c, s, s', t)
      ensures Inv(c, s') && s'.gen == s.gen + 1
      ensures forall u: nat :: u < c.n && u != t ==> s.pcs[u].Waiting? && s.pcs[u].gen == s.gen
      ensures forall u: nat :: u < c.n && Aligned(u, Pow2(s.gen)) ==> Covers(c, s', u, Pow2(s.gen))
    {
      forall u: nat | u < c.n && u != t ensures s.pcs[u].Waiting? && s.pcs[u].gen == s.gen { AllInside(c, s, t, u); }
      hide Covers;
      forall u: nat | u < c.n && Aligned(u, Pow2(s.gen)) ensures Covers(c, s', u, Pow2(s.gen)) {
        OpenCovers(c, s, s', t, u);
      }
      assert PcOk(c, s, t);
      hide PcOk, GroupOk, ConfigOk;
      OpenPcs(c, s, s', t);
      OpenGroups(c, s, s', t);
      assert Inside(s') == {};
    }
  }

  /** The invariant is inductive. */
  lemma StepKeepsInv<T(!new)>(c: Config<T>, s: State<T>, s': State<T>)
    requires Inv(c, s) && Step(c, s, s')
    ensures Inv(c, s')
  {
    var t :| ThreadStep(c, s, s', t);
    if Arrive(c, s, s', t) {
      if s.arrived + 1 < c.n { KeepEnter(c, s, s', t); } else { KeepOpen(c, s, s'); }
    } else {
      KeepScribble(c, s, s');
      KeepFinishSort(c, s, s');
      KeepRelease(c, s, s');
      KeepDecide(c, s, s');
      KeepMergeElement(c, s, s');
      KeepSetLength(c, s, s');
      KeepCopyElement(c, s, s');
      KeepClearLength(c, s, s');
      KeepClearBase(c, s, s');
    }
  }

  lemma InitInv<T(!new)>(c: Config<T>)
    requires ConfigOk(c)
    ensures forall s :: Init(c, s) ==> Inv(c, s)
  {
    forall s | Init(c, s) ensures Inv(c, s) { assert Inside(s) == {}; }
  }

  // ---------------------------------------------------------------- whole runs

  /** A run of the program: any interleaving of thread steps. */
  ghost predicate IsRun<T>(c: Config<T>, run: seq<State<T>>)
    requires |c.off| == c.n + 1
  {
    |run| > 0 && Init(c, run[0]) && forall i :: 0 <= i < |run| - 1 ==> Step(c, run[i], run[i + 1])
  }

  ghost predicate Reachable<T(!new)>(c: Config<T>, s: State<T>)
    requires |c.off| == c.n + 1
  {
    exists run, i :: IsRun(c, run) && 0 <= i < |run| && run[i] == s
  }

  lemma {:induction false} RunInv<T(!new)>(c: Config<T>, run: seq<State<T>>, n: nat)
    requires ConfigOk(c) && IsRun(c, run) && n < |run|
    ensures forall i :: 0 <= i <= n ==> Inv(c, run[i])
  {
    hide Inv, Step, Init;
    if n == 0 {
      InitInv(c);
    } else {
      RunInv(c, run, n - 1);
      assert Step(c, run[n - 1], run[n - 1 + 1]);
      StepKeepsInv(c, run[n - 1], run[n]);
    }
  }

  /** The invariant holds in every state of every run. */
  lemma ReachableInv<T(!new)>(c: Config<T>)
    requires ConfigOk(c)
    ensures forall s :: Reachable(c, s) ==> Inv(c, s)
  {
    hide Inv, Step, Init;
    forall s | Reachable(c, s) ensures Inv(c, s) {
      var run, i: nat :| IsRun(c, run) && i < |run| && run[i] == s;
      RunInv(c, run, i);
    }
  }

  ghost predicate AllDone<T>(s: State<T>) {
    forall t :: 0 <= t < |s.pcs| ==> s.pcs[t].Done?
  }

  /** When all threads are done, segment 0 is the whole input, sorted in place: nothing has to be copied back. */
  lemma DoneSorted<T(!new)>(c: Config<T>, s: State<T>)
    requires Inv(c, s) && AllDone(s)
    ensures c.good(c.input, s.a) && s.segments[0] == Segment(At(0), |c.input|)
  {
    assert PcOk(c, s, 0) && GroupOk(c, s, 0);
    assert c.input[0..|c.input|] == c.input && s.a[0..|c.input|] == s.a;
  }

  // ---------------------------------------------------------------- nobody is left stuck

  /** The local sort has an acceptable result to leave behind. */
  ghost predicate Sortable<T(!new)>(c: Config<T>)
    requires |c.off| == c.n + 1
  {
    forall t: nat :: t < c.n ==> LocallySortable(c, t)
  }

  ghost predicate LocallySortable<T(!new)>(c: Config<T>, t: nat)
    requires t < c.n && |c.off| == c.n + 1
  {
    c.off[t] <= c.off[t + 1] <= |c.input| && exists r :: GoodSort(c, t, r)
  }

  ghost predicate GoodSort<T>(c: Config<T>, t: nat, r: seq<T>)
    requires t < c.n && |c.off| == c.n + 1 && c.off[t] <= c.off[t + 1] <= |c.input|
  {
    |r| == c.off[t + 1] - c.off[t] && c.good(c.input[c.off[t]..c.off[t + 1]], r)
  }

  lemma CanFinishSort<T(!new)>(c: Config<T>, s: State<T>, t: nat)
    requires Inv(c, s) && Sortable(c) && t < c.n && s.pcs[t].Sorting?
    ensures exists s' :: FinishSort(c, s, s', t)
  {
    assert PcOk(c, s, t);
    AlignedOne(t);
    assert GroupOk(c, s, t);
    assert LocallySortable(c, t);
    var r :| GoodSort(c, t, r);
    var lo, hi := c.off[t], c.off[t + 1];
    assert hi == End(c, t, 1);
    var a' := s.a[..lo] + r + s.a[hi..];
    assert a'[lo..hi] == r;
    assert FinishSort(c, s, s.(a := a', pcs := s.pcs[t := Next(c, 1)]), t);
  }

  /** A thread that finds it has to merge leads a group, whose halves are sorted. */
  lemma LeaderHalves<T(!new)>(c: Config<T>, s: State<T>, t: nat)
    requires Inv(c, s) && t < c.n && s.pcs[t].Deciding?
    ensures s.pcs[t].step > 0 && 2 * s.pcs[t].step == Pow2(s.gen)
    ensures forall half :: 2 * half == Pow2(s.gen) && t % Pow2(s.gen) == 0 ==> Halves(c, s, t, half)
  {
    assert PcOk(c, s, t);
    AlignedMod(t, Pow2(s.gen));
    hide PcOk, Halves;
    assert Aligned(t, Pow2(s.gen)) ==> GroupOk(c, s, t);
  }

  lemma CanDecide<T(!new)>(c: Config<T>, s: State<T>, t: nat)
    requires Inv(c, s) && t < c.n && s.pcs[t].Deciding?
    ensures exists s' :: Decide(c, s, s', t)
  {
    LeaderHalves(c, s, t);
    SameLengths(c, s);
    assert t % (2 * s.pcs[t].step) == 0 ==> Halves(c, s, t, s.pcs[t].step);
    hide Inv;
    var step := s.pcs[t].step;
    var other := t + step;
    var pc := if t % (2 * step) == 0 && other < c.n
              then Merging(step, s.segments[t].nmemb, s.segments[other].nmemb,
                           s.segments[t].base.slot, s.segments[other].base.slot, 0, 0, [])
              else Next(c, 2 * step);
    assert Decide(c, s, s.(pcs := s.pcs[t := pc]), t);
  }

  lemma SameLengths<T(!new)>(c: Config<T>, s: State<T>)
    requires Inv(c, s)
    ensures |s.segments| == |s.pcs| == |s.waits| == c.n && |c.off| == c.n + 1 && |s.a| == |c.input|
  {
  }

  lemma CanMerge<T(!new)>(c: Config<T>, s: State<T>, t: nat) returns (s': State<T>)
    requires Inv(c, s) && t < c.n && s.pcs[t].Merging?
    ensures MergeElement(c, s, s', t) || SetLength(c, s, s', t)
  {
    MergingBounds(c, s, t);
    hide Inv, MergeElement;
    var Merging(step, m, n, left, right, i, j, data) := s.pcs[t];
    if i + j >= m + n {
      s' := s.(segments := s.segments[t := s.segments[t].(nmemb := m + n)],
               pcs := s.pcs[t := Copying(step, left, data, 0)]);
    } else {
      s' := CanMergeElement(c, s, t);
    }
  }

  lemma MergingBounds<T(!new)>(c: Config<T>, s: State<T>, t: nat)
    requires Inv(c, s) && t < c.n && s.pcs[t].Merging?
    ensures var Merging(_, m, n, left, right, i, j, _) := s.pcs[t];
      i <= m && j <= n && left + m == right && right + n <= |s.a| && t < |s.segments|
  {
    assert PcOk(c, s, t) && GroupOk(c, s, t);
    hide Merged, Halves, PcOk;
  }

  lemma CanMergeElement<T(!new)>(c: Config<T>, s: State<T>, t: nat) returns (s': State<T>)
    requires t < |s.pcs| && s.pcs[t].Merging? && s.pcs[t].i + s.pcs[t].j < s.pcs[t].m + s.pcs[t].n
    requires var Merging(_, m, n, left, right, i, j, _) := s.pcs[t];
      i <= m && j <= n && left + m == right && right + n <= |s.a|
    ensures MergeElement(c, s, s', t)
  {
    var Merging(step, m, n, left, right, i, j, data) := s.pcs[t];
    var pc := if i < m && (j >= n || c.cmp(s.a[left + i], s.a[right + j]) <= 0)
              then Merging(step, m, n, left, right, i + 1, j, data + [s.a[left + i]])
              else Merging(step, m, n, left, right, i, j + 1, data + [s.a[right + j]]);
    s' := s.(pcs := s.pcs[t := pc]);
  }

  lemma CanCopy<T(!new)>(c: Config<T>, s: State<T>, t: nat) returns (s': State<T>)
    requires Inv(c, s) && t < c.n && (s.pcs[t].Copying? || s.pcs[t].Clearing?)
    ensures CopyElement(c, s, s', t) || ClearLength(c, s, s', t) || ClearBase(c, s, s', t)
  {
    assert PcOk(c, s, t) && GroupOk(c, s, t);
    hide Inv;
    var other := t + s.pcs[t].step;
    match s.pcs[t]
    case Copying(step, left, data, k) =>
      if k < |data| {
        s' := s.(a := s.a[left + k := data[k]], pcs := s.pcs[t := Copying(step, left, data, k + 1)]);
      } else {
        s' := s.(segments := s.segments[other := s.segments[other].(nmemb := 0)], pcs := s.pcs[t := Clearing(step)]);
      }
    case Clearing(step) =>
      s' := s.(segments := s.segments[other := s.segments[other].(base := Null)], pcs := s.pcs[t := Next(c, 2 * step)]);
  }

  /** In every state that is not final some thread can take a step: no thread waits for ever at a barrier. */
  lemma NoDeadlock<T(!new)>(c: Config<T>, s: State<T>) returns (s': State<T>)
    requires Inv(c, s) && Sortable(c) && !AllDone(s)
    ensures Step(c, s, s')
  {
    var t := SomeoneActive(c, s);
    assert PcOk(c, s, t);
    match s.pcs[t]
    case Sorting(_) =>
      CanFinishSort(c, s, t);
      s' :| FinishSort(c, s, s', t);
      assert ThreadStep(c, s, s', t);
    case Arriving(step) =>
      s' := if s.arrived + 1 < c.n
            then s.(arrived := s.arrived + 1, pcs := s.pcs[t := Waiting(step, s.gen)])
            else s.(arrived := 0, gen := s.gen + 1, pcs := s.pcs[t := Deciding(step)],
                    waits := s.waits[t := s.waits[t] + 1]);
      assert ThreadStep(c, s, s', t);
    case Waiting(step, _) =>
      s' := s.(pcs := s.pcs[t := Deciding(step)], waits := s.waits[t := s.waits[t] + 1]);
      assert ThreadStep(c, s, s', t);
    case Deciding(_) =>
      CanDecide(c, s, t);
      s' :| Decide(c, s, s', t);
      assert ThreadStep(c, s, s', t);
    case Merging(_, _, _, _, _, _, _, _) =>
      s' := CanMerge(c, s, t);
      assert ThreadStep(c, s, s', t);
    case Done =>
      assert false;
    case _ =>
      s' := CanCopy(c, s, t);
      assert ThreadStep(c, s, s', t);
  }

  /** Not all threads can be inside the barrier, and none can be done while another still waits. */
  lemma SomeoneActive<T(!new)>(c: Config<T>, s: State<T>) returns (t: nat)
    requires Inv(c, s) && !AllDone(s)
    ensures t < c.n && !s.pcs[t].Done? && !(s.pcs[t].Waiting? && s.pcs[t].gen == s.gen)
  {
    var u: nat :| u < c.n && !s.pcs[u].Done?;
    if s.pcs[u].Waiting? && s.pcs[u].gen == s.gen {
      assert PcOk(c, s, u);
      var all := SlotsBelow(c.n);
      SubsetCard(Inside(s), all);
      assert Inside(s) != all;
      t :| t in all && t !in Inside(s);
      assert PcOk(c, s, t);
    } else {
      t := u;
    }
  }

  // ---------------------------------------------------------------- every run ends

  function Rounds(step: nat, n: nat): nat
    requires step > 0
    decreases n - step
  {
    if step >= n then 0 else 1 + Rounds(2 * step, n)
  }

  /** An upper bound for what one thread still has to do. */
  function Work<T>(c: Config<T>, pc: Pc<T>): nat {
    match pc
    case Sorting(budget) => RoundsWork(c, 1) + 1 + budget
    case Arriving(step) => RoundsWork(c, step)
    case Waiting(step, _) => RoundsWork(c, 2 * step) + 2 * |c.input| + 7
    case Deciding(step) => RoundsWork(c, 2 * step) + 2 * |c.input| + 6
    case Merging(step, m, n, _, _, i, j, _) =>
      RoundsWork(c, 2 * step) + 2 * (m + n) + 4 - (if i + j <= m + n then i + j else m + n)
    case Copying(step, _, data, k) => RoundsWork(c, 2 * step) + 3 + if k <= |data| then |data| - k else 0
    case Clearing(step) => RoundsWork(c, 2 * step) + 2
    case Done => 0
  }

  function RoundsWork<T>(c: Config<T>, step: nat): nat {
    if step == 0 then 0 else Rounds(step, c.n) * (2 * |c.input| + 8)
  }

  lemma RoundWork<T>(c: Config<T>, step: nat)
    requires 0 < step < c.n
    ensures RoundsWork(c, step) == RoundsWork(c, 2 * step) + 2 * |c.input| + 8
  {
    var k := 2 * |c.input| + 8;
    assert (1 + Rounds(2 * step, c.n)) * k == k + Rounds(2 * step, c.n) * k;
  }

  function TotalWork<T>(c: Config<T>, pcs: seq<Pc<T>>): nat {
    if pcs == [] then 0 else Work(c, pcs[0]) + TotalWork(c, pcs[1..])
  }

  lemma {:induction false} LessWork<T>(c: Config<T>, pcs: seq<Pc<T>>, pcs': seq<Pc<T>>, t: nat)
    requires t < |pcs| == |pcs'| && pcs' == pcs[t := pcs'[t]] && Work(c, pcs'[t]) < Work(c, pcs[t])
    ensures TotalWork(c, pcs') < TotalWork(c, pcs)
  {
    if t == 0 {
      assert pcs'[1..] == pcs[1..];
    } else {
      LessWork(c, pcs[1..], pcs'[1..], t - 1);
    }
  }

  lemma NextWork<T>(c: Config<T>, step: nat)
    requires step > 0
    ensures Work(c, Next(c, step)) == RoundsWork(c, step)
  {
  }

  /** Thread t alone has moved, and has less to do. */
  ghost predicate LessLeft<T>(c: Config<T>, s: State<T>, s': State<T>, t: nat) {
    t < |s.pcs| == |s'.pcs| && s'.pcs == s.pcs[t := s'.pcs[t]] && Work(c, s'.pcs[t]) < Work(c, s.pcs[t])
  }

  lemma StepWork<T(!new)>(c: Config<T>, s: State<T>, s': State<T>, t: nat)
    requires Inv(c, s) && ThreadStep(c, s, s', t)
    ensures LessLeft(c, s, s', t)
  {
    assert t < c.n && PcOk(c, s, t);
    hide Inv, PcOk, LessLeft, Scribble, FinishSort, Arrive, Release, Decide, MergeElement, SetLength;
    hide CopyElement, ClearLength, ClearBase;
    if Scribble(c, s, s', t) || FinishSort(c, s, s', t) {
      SortingWork(c, s, s', t);
    } else if Arrive(c, s, s', t) || Release(c, s, s', t) {
      BarrierWork(c, s, s', t);
    } else if Decide(c, s, s', t) {
      DecideWork(c, s, s', t);
    } else if MergeElement(c, s, s', t) || SetLength(c, s, s', t) {
      MergeWork(c, s, s', t);
    } else {
      CopyWork(c, s, s', t);
    }
  }

  lemma SortingWork<T(!new)>(c: Config<T>, s: State<T>, s': State<T>, t: nat)
    requires t < |s.pcs| == |s.segments| && (Scribble(c, s, s', t) || FinishSort(c, s, s', t))
    ensures LessLeft(c, s, s', t)
  {
    NextWork(c, 1);
  }

  lemma BarrierWork<T(!new)>(c: Config<T>, s: State<T>, s': State<T>, t: nat)
    requires t < |s.pcs| == |s.waits| && PcOk(c, s, t) && (Arrive(c, s, s', t) || Release(c, s, s', t))
    ensures LessLeft(c, s, s', t)
  {
    if s.pcs[t].Arriving? { RoundWork(c, s.pcs[t].step); }
    hide RoundsWork;
  }

  lemma CopyWork<T(!new)>(c: Config<T>, s: State<T>, s': State<T>, t: nat)
    requires t < |s.pcs| == |s.segments| == |s.waits| && PcOk(c, s, t)
    requires CopyElement(c, s, s', t) || ClearLength(c, s, s', t) || ClearBase(c, s, s', t)
    ensures LessLeft(c, s, s', t)
  {
    if s.pcs[t].Clearing? { NextWork(c, 2 * s.pcs[t].step); }
    hide RoundsWork;
  }

  lemma DecideWork<T(!new)>(c: Config<T>, s: State<T>, s': State<T>, t: nat)
    requires Inv(c, s) && t < c.n && Decide(c, s, s', t)
    ensures LessLeft(c, s, s', t)
  {
    LeaderHalves(c, s, t);
    SameLengths(c, s);
    hide Inv, Halves, RoundsWork;
    NextWork(c, 2 * s.pcs[t].step);
    if s'.pcs[t].Merging? {
      HalvesLength(c, s, t, s.pcs[t].step);
    }
  }

  lemma HalvesLength<T(!new)>(c: Config<T>, s: State<T>, t: nat, half: nat)
    requires |c.off| == c.n + 1 && t + half < c.n == |s.segments| && Halves(c, s, t, half)
    ensures s.segments[t].nmemb + s.segments[t + half].nmemb <= |c.input|
  {
  }

  lemma MergeWork<T(!new)>(c: Config<T>, s: State<T>, s': State<T>, t: nat)
    requires Inv(c, s) && t < c.n && (MergeElement(c, s, s', t) || SetLength(c, s, s', t))
    ensures LessLeft(c, s, s', t)
  {
    MergingBounds(c, s, t);
    BufferLength(c, s, t);
    hide Inv, RoundsWork;
  }

  lemma BufferLength<T(!new)>(c: Config<T>, s: State<T>, t: nat)
    requires Inv(c, s) && t < c.n && s.pcs[t].Merging?
    ensures |s.pcs[t].data| == s.pcs[t].i + s.pcs[t].j
  {
    assert PcOk(c, s, t) && GroupOk(c, s, t);
    hide Halves, PcOk;
  }

  /** Every step leaves less to do, whatever the interleaving. */
  lemma StepDecreases<T(!new)>(c: Config<T>, s: State<T>, s': State<T>)
    requires Inv(c, s) && Step(c, s, s')
    ensures TotalWork(c, s'.pcs) < TotalWork(c, s.pcs)
  {
    var t :| ThreadStep(c, s, s', t);
    StepWork(c, s, s', t);
    LessWork(c, s.pcs, s'.pcs, t);
  }

  lemma {:induction false} RunWork<T(!new)>(c: Config<T>, run: seq<State<T>>, i: nat)
    requires ConfigOk(c) && IsRun(c, run) && i < |run|
    ensures TotalWork(c, run[i].pcs) + i <= TotalWork(c, run[0].pcs)
  {
    hide ConfigOk, Inv, Init, Step, TotalWork;
    if i > 0 {
      assert Step(c, run[i - 1], run[i - 1 + 1]);
      RunWork(c, run, i - 1);
      RunInv(c, run, i - 1);
      StepDecreases(c, run[i - 1], run[i]);
    }
  }

  // ---------------------------------------------------------------- who touches what

  /** The slots of the shared array that thread t may read or write in its next step. */
  ghost predicate MayTouch<T>(s: State<T>, t: nat, p: nat)
    requires t < |s.pcs| == |s.segments|
  {
    match s.pcs[t]
    case Sorting(_) =>
      s.segments[t].base.At? && s.segments[t].base.slot <= p < s.segments[t].base.slot + s.segments[t].nmemb
    case Merging(_, m, n, left, right, _, _, _) => left <= p < left + m || right <= p < right + n
    case Copying(_, left, data, _) => left <= p < left + |data|
    case _ => false
  }

  /** The segment descriptors that thread t may read or write in its next step. */
  ghost predicate MayTouchSegment<T>(s: State<T>, t: nat, i: nat)
    requires t < |s.pcs|
  {
    match s.pcs[t]
    case Sorting(_) => i == t
    case Deciding(step) => step > 0 && t % (2 * step) == 0 && (i == t || i == t + step)
    case Merging(step, _, _, _, _, _, _, _) => i == t || i == t + step
    case Copying(step, _, _, _) => i == t || i == t + step
    case Clearing(step) => i == t || i == t + step
    case _ => false
  }

  /** A step writes nothing else. */
  lemma WritesOnlyTouched<T(!new)>(c: Config<T>, s: State<T>, s': State<T>, t: nat)
    requires Inv(c, s) && ThreadStep(c, s, s', t)
    ensures forall p: nat :: p < |s.a| && s'.a[p] != s.a[p] ==> MayTouch(s, t, p)
    ensures forall i: nat :: i < |s.segments| && s'.segments[i] != s.segments[i] ==> MayTouchSegment(s, t, i)
    ensures forall u: nat :: u < |s.pcs| && u != t ==> s'.pcs[u] == s.pcs[u]
  {
    SameLengths(c, s);
    hide Inv, ConfigOk, Pow2;
  }

  lemma TouchesOwnGroup<T(!new)>(c: Config<T>, s: State<T>, t: nat)
    requires Inv(c, s) && t < c.n
    ensures forall p: nat :: MayTouch(s, t, p) ==> Aligned(t, Pow2(s.gen)) && c.off[t] <= p < End(c, t, Pow2(s.gen))
    ensures forall i: nat :: MayTouchSegment(s, t, i) ==> Aligned(t, Pow2(s.gen)) && t <= i < t + Pow2(s.gen)
  {
    assert PcOk(c, s, t);
    AlignedMod(t, Pow2(s.gen));
    AlignedOne(t);
    if Aligned(t, Pow2(s.gen)) {
      assert GroupOk(c, s, t);
    }
    hide Inv, Covers, Merged;
  }

  /** No two threads ever touch the same slot or the same descriptor. */
  lemma TouchDisjoint<T(!new)>(c: Config<T>, s: State<T>, t: nat, u: nat)
    requires ConfigOk(c) && Reachable(c, s) && t < c.n && u < c.n && t != u
    ensures |s.pcs| == |s.segments| == c.n
    ensures forall p: nat :: !(MayTouch(s, t, p) && MayTouch(s, u, p))
    ensures forall i: nat :: !(MayTouchSegment(s, t, i) && MayTouchSegment(s, u, i))
  {
    hide Reachable;
    ReachableInv(c);
    SameLengths(c, s);
    TouchesOwnGroup(c, s, t);
    TouchesOwnGroup(c, s, u);
    var width := Pow2(s.gen);
    if Aligned(t, width) && Aligned(u, width) {
      if t < u { AlignedGap(t, u, width); } else { AlignedGap(u, t, width); }
    }
    hide MayTouch, MayTouchSegment, Inv;
  }

  /** Threads are never more than one barrier apart, and when all are done all have waited equally often: as often
      as step can be doubled before it reaches the thread count. */
  lemma BarrierDistance<T(!new)>(c: Config<T>, s: State<T>, t: nat, u: nat)
    requires ConfigOk(c) && Reachable(c, s) && t < c.n && u < c.n
    ensures |s.waits| == c.n && s.waits[t] <= s.waits[u] + 1
    ensures AllDone(s) ==> s.waits[t] == s.gen && Pow2(s.gen) >= c.n && (s.gen > 0 ==> Pow2(s.gen - 1) < c.n)
  {
    hide Reachable;
    ReachableInv(c);
    assert PcOk(c, s, t) && PcOk(c, s, u);
  }

  // ---------------------------------------------------------------- the main results

  /** Every run of psort_r is bounded, can go on until all threads are done, and then has sorted the array in place. */
  lemma PSortCorrect<T(!new)>(c: Config<T>, run: seq<State<T>>)
    requires ConfigOk(c) && Sortable(c) && IsRun(c, run)
    ensures |run| <= TotalWork(c, run[0].pcs) + 1
    ensures var last := run[|run| - 1];
      if AllDone(last)
      then c.good(c.input, last.a) && |last.segments| > 0 && last.segments[0] == Segment(At(0), |c.input|)
      else exists next :: Step(c, last, next)
  {
    var last := run[|run| - 1];
    RunWork(c, run, |run| - 1);
    RunInv(c, run, |run| - 1);
    if AllDone(last) {
      DoneSorted(c, last);
    } else {
      var next := NoDeadlock(c, last);
    }
  }

  ghost predicate Offsets(off: seq<nat>, n: nat, nmemb: nat) {
    n > 0 && |off| == n + 1 && off[0] == 0 && off[n] == nmemb && forall i, j :: 0 <= i <= j <= n ==> off[i] <= off[j]
  }

  /** With a stable local sort, any number of threads and any interleaving compute the one stable sort. */
  lemma PSortStable<T(!new)>(cmp: (T, T) -> int, input: seq<T>, off: seq<nat>, n: nat, run: seq<State<T>>)
    requires TotalPreorder(cmp) && Offsets(off, n, |input|)
    requires IsRun(Config(cmp, StableGood(cmp), input, off, n), run) && AllDone(run[|run| - 1])
    ensures run[|run| - 1].a == StableSort(cmp, input)
  {
    var c := Config(cmp, StableGood(cmp), input, off, n);
    StableClosed(cmp);
    forall t: nat | t < n ensures LocallySortable(c, t) {
      var s := input[off[t]..off[t + 1]];
      StableSortPerm(cmp, s);
      assert GoodSort(c, t, StableSort(cmp, s));
    }
    PSortCorrect(c, run);
  }

  /** With any correct local sort the result is a sorted permutation. */
  lemma PSortSorts<T(!new)>(cmp: (T, T) -> int, input: seq<T>, off: seq<nat>, n: nat, run: seq<State<T>>)
    requires TotalPreorder(cmp) && Offsets(off, n, |input|)
    requires IsRun(Config(cmp, SortedGood(cmp), input, off, n), run) && AllDone(run[|run| - 1])
    ensures SortedPerm(cmp, input, run[|run| - 1].a)
  {
    var c := Config(cmp, SortedGood(cmp), input, off, n);
    SortedClosed(cmp);
    forall t: nat | t < n ensures LocallySortable(c, t) {
      var s := input[off[t]..off[t + 1]];
      StableSortPerm(cmp, s);
      StableSortCorrect(cmp, s);
      assert GoodSort(c, t, StableSort(cmp, s));
    }
    PSortCorrect(c, run);
  }

  // ---------------------------------------------------------------- partition

  /** psort_r's partition: contiguous segments whose lengths differ by at most one. */
  method Partition(nmemb: nat, thread_count: nat) returns (segments: array<Segment>, ghost off: seq<nat>)
    requires thread_count > 0
    ensures segments.Length == thread_count && Offsets(off, thread_count, nmemb)
    ensures forall i: nat :: i < thread_count ==> ShareOk(segments[i], off, i, nmemb / thread_count)
  {
    hide Balanced, ShareOk, Offsets;
    StartBalanced(nmemb, thread_count);
    segments, off := Distribute(nmemb, thread_count, nmemb / thread_count);
  }

  function Portion(rest: nat, count: nat): nat
    requires count > 0
  {
    rest / count
  }

  method Distribute(nmemb: nat, thread_count: nat, ghost q: nat) returns (segments: array<Segment>, ghost off: seq<nat>)
    requires thread_count > 0 && Balanced(nmemb, thread_count, q)
    ensures segments.Length == thread_count && Offsets(off, thread_count, nmemb)
    ensures forall i: nat :: i < thread_count ==> ShareOk(segments[i], off, i, q)
  {
    hide Balanced, Portion;
    segments := new Segment[thread_count];
    off := [0];
    var rest_count, rest_len := thread_count, nmemb;
    var ptr := 0;
    for i := 0 to thread_count
      invariant rest_count == thread_count - i && ptr + rest_len == nmemb && Balanced(rest_len, rest_count, q)
      invariant |off| == i + 1 && off[0] == 0 && off[i] == ptr
      invariant forall k: nat :: k < i ==> ShareOk(segments[k], off, k, q)
    {
      var len_per_thread := Portion(rest_len, rest_count);
      Share(rest_len, rest_count, q, len_per_thread);
      segments[i] := Segment(At(ptr), len_per_thread);
      if i == thread_count - 1 {
        assert rest_len == len_per_thread;
      }
      ptr := ptr + len_per_thread;
      rest_count := rest_count - 1;
      rest_len := rest_len - len_per_thread;
      off := off + [ptr];
    }
    NoneLeft(rest_len, q);
    forall i, j: nat | 0 <= i <= j <= thread_count ensures off[i] <= off[j] {
      SharesGrow(segments[..], off, q, i, j);
    }
  }

  /** Segment i covers the slots between two offsets, q or q + 1 of them. */
  ghost predicate ShareOk(segment: Segment, off: seq<nat>, i: nat, q: nat) {
    i + 1 < |off| && off[i] <= off[i + 1] && segment == Segment(At(off[i]), off[i + 1] - off[i])
      && q <= segment.nmemb <= q + 1
  }

  lemma {:induction false} SharesGrow(segments: seq<Segment>, off: seq<nat>, q: nat, i: nat, j: nat)
    requires i <= j <= |segments| < |off| && forall k: nat :: k < |segments| ==> ShareOk(segments[k], off, k, q)
    ensures off[i] <= off[j]
  {
    if i < j {
      SharesGrow(segments, off, q, i, j - 1);
      assert ShareOk(segments[j - 1], off, j - 1, q);
    }
  }

  /** rest can be shared among count threads in portions of q or q + 1. */
  ghost predicate Balanced(rest: nat, count: nat, q: nat) {
    q * count <= rest <= (q + 1) * count
  }

  lemma StartBalanced(x: nat, d: nat)
    requires d > 0
    ensures Balanced(x, d, x / d)
  {
    DivisionBounds(x, d);
  }

  lemma NoneLeft(rest: nat, q: nat)
    requires Balanced(rest, 0, q)
    ensures rest == 0
  {
  }

  lemma DivisionBounds(x: nat, d: nat)
    requires d > 0
    ensures (x / d) * d <= x < (x / d) * d + d
  {
    assert x == d * (x / d) + x % d;
  }

  /** Taking one share leaves the rest equally balanced. */
  lemma Share(rest: nat, count: nat, q: nat, d: nat)
    requires count > 0 && Balanced(rest, count, q) && d == Portion(rest, count)
    ensures q <= d <= q + 1 && d <= rest && Balanced(rest - d, count - 1, q)
    ensures count == 1 ==> d == rest
  {
    DivisionBounds(rest, count);
    BetweenShares(rest, count, q, d);
    TakeShare(rest, count, q, d);
    hide Balanced;
  }

  lemma BetweenShares(rest: nat, count: nat, q: nat, d: nat)
    requires count > 0 && Balanced(rest, count, q) && d * count <= rest < d * count + count
    ensures q <= d <= q + 1
  {
    if d < q { MulMore(d + 1, q, count); }
    if d > q + 1 { MulMore(q + 2, d, count); }
  }

  lemma TakeShare(rest: nat, count: nat, q: nat, d: nat)
    requires count > 0 && Balanced(rest, count, q) && d * count <= rest < d * count + count && (d == q || d == q + 1)
    ensures d <= rest && Balanced(rest - d, count - 1, q)
  {
    assert q * (count - 1) == q * count - q;
    assert (q + 1) * (count - 1) == (q + 1) * count - q - 1;
    MulMore(1, count, d);
  }

  lemma MulMore(x: nat, y: nat, z: nat)
    requires x <= y
    ensures x * z <= y * z
  {
    assert y * z == x * z + (y - x) * z;
  }
}
