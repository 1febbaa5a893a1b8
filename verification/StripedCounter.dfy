/** Counting bytes in shared memory (posix/ipc/shared-memory-count-output-semaphore.c, shared-memory-count.c; with a
    limit of 1 and one stripe per value also the mutexes of posix/threads/thread-memory-count-shorts-mutex.c).

    Any number of processes count the characters of their input in one shared array. A semaphore of value limit guards
    the characters of each stripe: a writer takes all limit units, a reader takes one. At the end each process reports
    all counts, holding the output semaphore if there is one. A process may crash at any step; the kernel then undoes
    its semaphore operations (SEM_UNDO). */
module StripedCounter {
  import opened Sums

  /** start: the counts before the first process runs */
  datatype Config = Config(alphabet: nat, stripes: nat, limit: nat, outputLock: bool, inputs: seq<seq<nat>>,
                           start: seq<int>)

  ghost predicate ConfigOk(c: Config) {
    && c.stripes > 0 && c.limit > 0 && |c.start| == c.alphabet
    && forall p, k :: 0 <= p < |c.inputs| && 0 <= k < |c.inputs[p]| ==> c.inputs[p][k] < c.alphabet
  }

  /** Where a process is; rep holds the counts it has reported so far. */
  datatype Pc =
    | Counting(k: nat)              // about to take all units of the stripe of its k-th character
    | Writing(k: nat)               // has them
    | Incrementing(k: nat, v: int)  // has read the count v
    | Stored(k: nat)                // has written v + 1
    | WantOutput                    // about to take the output semaphore
    | Reporting(rep: seq<int>)      // about to take one unit of the next stripe
    | Reading(rep: seq<int>)        // has it
    | HasRead(rep: seq<int>)        // has read the count, which ends rep
    | Finished(rep: seq<int>)
    | Crashed

  /** stored[p] counts the increments process p has written. */
  datatype State = State(sem: seq<nat>, out: nat, counter: seq<int>, pcs: seq<Pc>, stored: seq<nat>)

  function StripeOf(c: Config, ch: nat): (q: nat)
    requires c.stripes > 0
    ensures q < c.stripes
  {
    ch % c.stripes
  }

  /** The stripe of a character is its rest when divided by the number of stripes. */
  lemma StripeIsRest(c: Config, ch: nat)
    requires c.stripes > 0
    ensures ch == ch / c.stripes * c.stripes + StripeOf(c, ch) && 0 <= StripeOf(c, ch) < c.stripes
  {
  }

  function Next(c: Config, p: nat, k: nat): Pc
    requires p < |c.inputs|
  {
    if k < |c.inputs[p]| then Counting(k) else WantOutput
  }

  // ---------------------------------------------------------------- steps

  ghost predicate Init(c: Config, s: State) {
    && |s.sem| == c.stripes && (forall q :: 0 <= q < c.stripes ==> s.sem[q] == c.limit)
    && s.out == 1 && s.counter == c.start && |s.pcs| == |s.stored| == |c.inputs|
    && forall p :: 0 <= p < |c.inputs| ==> s.pcs[p] == Next(c, p, 0) && s.stored[p] == 0
  }

  /** The sequences of s have the lengths that c asks for. */
  ghost predicate Shape(c: Config, s: State) {
    |s.sem| == c.stripes && |s.counter| == c.alphabet && |s.pcs| == |s.stored| == |c.inputs|
  }

  ghost predicate TakeWrite(c: Config, s: State, s': State, p: nat)
    requires ConfigOk(c) && Shape(c, s) && p < |s.pcs|
  {
    && s.pcs[p].Counting? && s.pcs[p].k < |c.inputs[p]|
    && var q := StripeOf(c, c.inputs[p][s.pcs[p].k]);
       s.sem[q] >= c.limit && s' == s.(sem := s.sem[q := s.sem[q] - c.limit], pcs := s.pcs[p := Writing(s.pcs[p].k)])
  }

  /** counter[c]++ reads ... */
  ghost predicate ReadOld(c: Config, s: State, s': State, p: nat)
    requires ConfigOk(c) && Shape(c, s) && p < |s.pcs|
  {
    && s.pcs[p].Writing? && s.pcs[p].k < |c.inputs[p]|
    && s' == s.(pcs := s.pcs[p := Incrementing(s.pcs[p].k, s.counter[c.inputs[p][s.pcs[p].k]])])
  }

  /** ... and writes. */
  ghost predicate StoreNew(c: Config, s: State, s': State, p: nat)
    requires ConfigOk(c) && Shape(c, s) && p < |s.pcs|
  {
    && s.pcs[p].Incrementing? && s.pcs[p].k < |c.inputs[p]|
    && s' == s.(counter := s.counter[c.inputs[p][s.pcs[p].k] := s.pcs[p].v + 1],
                pcs := s.pcs[p := Stored(s.pcs[p].k)], stored := s.stored[p := s.stored[p] + 1])
  }

  ghost predicate GiveWrite(c: Config, s: State, s': State, p: nat)
    requires ConfigOk(c) && Shape(c, s) && p < |s.pcs|
  {
    && s.pcs[p].Stored? && s.pcs[p].k < |c.inputs[p]|
    && var q := StripeOf(c, c.inputs[p][s.pcs[p].k]);
       s' == s.(sem := s.sem[q := s.sem[q] + c.limit], pcs := s.pcs[p := Next(c, p, s.pcs[p].k + 1)])
  }

  ghost predicate TakeOutput(c: Config, s: State, s': State, p: nat)
    requires ConfigOk(c) && Shape(c, s) && p < |s.pcs|
  {
    && s.pcs[p].WantOutput? && (c.outputLock ==> s.out >= 1)
    && s' == s.(out := if c.outputLock then s.out - 1 else s.out, pcs := s.pcs[p := Reporting([])])
  }

  ghost predicate TakeRead(c: Config, s: State, s': State, p: nat)
    requires ConfigOk(c) && Shape(c, s) && p < |s.pcs|
  {
    && s.pcs[p].Reporting? && |s.pcs[p].rep| < c.alphabet
    && var q := StripeOf(c, |s.pcs[p].rep|);
       s.sem[q] >= 1 && s' == s.(sem := s.sem[q := s.sem[q] - 1], pcs := s.pcs[p := Reading(s.pcs[p].rep)])
  }

  ghost predicate ReadCount(c: Config, s: State, s': State, p: nat)
    requires ConfigOk(c) && Shape(c, s) && p < |s.pcs|
  {
    && s.pcs[p].Reading? && |s.pcs[p].rep| < c.alphabet
    && s' == s.(pcs := s.pcs[p := HasRead(s.pcs[p].rep + [s.counter[|s.pcs[p].rep|]])])
  }

  ghost predicate GiveRead(c: Config, s: State, s': State, p: nat)
    requires ConfigOk(c) && Shape(c, s) && p < |s.pcs|
  {
    && s.pcs[p].HasRead? && |s.pcs[p].rep| > 0
    && var q := StripeOf(c, |s.pcs[p].rep| - 1);
       s' == s.(sem := s.sem[q := s.sem[q] + 1], pcs := s.pcs[p := Reporting(s.pcs[p].rep)])
  }

  ghost predicate GiveOutput(c: Config, s: State, s': State, p: nat)
    requires ConfigOk(c) && Shape(c, s) && p < |s.pcs|
  {
    && s.pcs[p].Reporting? && |s.pcs[p].rep| >= c.alphabet
    && s' == s.(out := if c.outputLock then s.out + 1 else s.out, pcs := s.pcs[p := Finished(s.pcs[p].rep)])
  }

  /** What process p, at pc, has taken from the semaphore of stripe q. */
  function Use(c: Config, p: nat, pc: Pc, q: nat): nat
    requires c.stripes > 0 && p < |c.inputs|
  {
    match pc
    case Writing(k) => if k < |c.inputs[p]| && StripeOf(c, c.inputs[p][k]) == q then c.limit else 0
    case Incrementing(k, v) => if k < |c.inputs[p]| && StripeOf(c, c.inputs[p][k]) == q then c.limit else 0
    case Stored(k) => if k < |c.inputs[p]| && StripeOf(c, c.inputs[p][k]) == q then c.limit else 0
    case Reading(rep) => if StripeOf(c, |rep|) == q then 1 else 0
    case HasRead(rep) => if |rep| > 0 && StripeOf(c, |rep| - 1) == q then 1 else 0
    case _ => 0
  }

  /** What it has taken from the output semaphore. */
  function OutUse(c: Config, pc: Pc): nat {
    if c.outputLock && (pc.Reporting? || pc.Reading? || pc.HasRead?) then 1 else 0
  }

  /** A crash: the kernel gives back what the process has taken. */
  ghost predicate Crash(c: Config, s: State, s': State, p: nat)
    requires ConfigOk(c) && Shape(c, s) && p < |s.pcs|
  {
    && !s.pcs[p].Finished? && !s.pcs[p].Crashed?
    && s' == s.(sem := seq(c.stripes, q requires 0 <= q < c.stripes => s.sem[q] + Use(c, p, s.pcs[p], q)),
                out := s.out + OutUse(c, s.pcs[p]), pcs := s.pcs[p := Crashed])
  }

  /** A step of the program itself. */
  ghost predicate OwnStep(c: Config, s: State, s': State, p: nat)
    requires ConfigOk(c) && Shape(c, s) && p < |s.pcs|
  {
    || TakeWrite(c, s, s', p) || ReadOld(c, s, s', p) || StoreNew(c, s, s', p) || GiveWrite(c, s, s', p)
    || TakeOutput(c, s, s', p) || TakeRead(c, s, s', p) || ReadCount(c, s, s', p) || GiveRead(c, s, s', p)
    || GiveOutput(c, s, s', p)
  }

  ghost predicate ProcessStep(c: Config, s: State, s': State, p: nat) {
    ConfigOk(c) && Shape(c, s) && p < |s.pcs| && (OwnStep(c, s, s', p) || Crash(c, s, s', p))
  }

  ghost predicate Step(c: Config, s: State, s': State) {
    exists p :: ProcessStep(c, s, s', p)
  }

  ghost predicate IsRun(c: Config, run: seq<State>) {
    |run| > 0 && Init(c, run[0]) && forall k :: 0 <= k < |run| - 1 ==> Step(c, run[k], run[k + 1])
  }

  ghost predicate Reachable(c: Config, s: State) {
    exists run :: IsRun(c, run) && run[|run| - 1] == s
  }

  // ---------------------------------------------------------------- the invariant

  function Uses(c: Config, pcs: seq<Pc>, q: nat): (r: seq<int>)
    requires c.stripes > 0 && |pcs| == |c.inputs|
    ensures |r| == |pcs| && forall p :: 0 <= p < |pcs| ==> r[p] == Use(c, p, pcs[p], q)
  {
    seq(|pcs|, p requires 0 <= p < |pcs| => Use(c, p, pcs[p], q))
  }

  function OutUses(c: Config, pcs: seq<Pc>): (r: seq<int>)
    ensures |r| == |pcs| && forall p :: 0 <= p < |pcs| ==> r[p] == OutUse(c, pcs[p])
  {
    seq(|pcs|, p requires 0 <= p < |pcs| => OutUse(c, pcs[p]))
  }

  /** How often ch occurs in input. */
  function Occurs(input: seq<nat>, ch: nat): nat {
    if input == [] then 0 else Occurs(input[..|input| - 1], ch) + (if input[|input| - 1] == ch then 1 else 0)
  }

  function Prefix(input: seq<nat>, n: nat): seq<nat> { if n <= |input| then input[..n] else input }

  /** How often each process has counted ch. */
  function Counts(c: Config, stored: seq<nat>, ch: nat): (r: seq<int>)
    requires |stored| == |c.inputs|
    ensures |r| == |stored| && forall p :: 0 <= p < |stored| ==> r[p] == Occurs(Prefix(c.inputs[p], stored[p]), ch)
  {
    seq(|stored|, p requires 0 <= p < |stored| => Occurs(Prefix(c.inputs[p], stored[p]), ch))
  }

  /** What a process has reported so far contains the starting count and all it has counted itself. */
  ghost predicate ReportOk(c: Config, s: State, p: nat, rep: seq<int>)
    requires p < |c.inputs| && Shape(c, s) && ConfigOk(c)
  {
    && |rep| <= c.alphabet && s.stored[p] == |c.inputs[p]|
    && forall ch: nat :: ch < |rep| ==> c.start[ch] + Occurs(c.inputs[p], ch) <= rep[ch] <= s.counter[ch]
  }

  ghost predicate PcOk(c: Config, s: State, p: nat)
    requires p < |c.inputs| && Shape(c, s) && ConfigOk(c)
  {
    && s.stored[p] <= |c.inputs[p]|
    && match s.pcs[p]
       case Counting(k) => k < |c.inputs[p]| && s.stored[p] == k
       case Writing(k) => k < |c.inputs[p]| && s.stored[p] == k
       case Incrementing(k, v) => k < |c.inputs[p]| && s.stored[p] == k && v == s.counter[c.inputs[p][k]]
       case Stored(k) => k < |c.inputs[p]| && s.stored[p] == k + 1
       case WantOutput => s.stored[p] == |c.inputs[p]|
       case Reporting(rep) => ReportOk(c, s, p, rep)
       case Reading(rep) => ReportOk(c, s, p, rep) && |rep| < c.alphabet
       case HasRead(rep) => ReportOk(c, s, p, rep) && |rep| > 0
       case Finished(rep) => ReportOk(c, s, p, rep) && |rep| == c.alphabet
       case Crashed => true
  }

  /** No increment is lost: the count is the starting count and all increments written. */
  ghost predicate CountOk(c: Config, s: State, ch: nat)
    requires ConfigOk(c) && Shape(c, s) && ch < c.alphabet
  {
    s.counter[ch] == c.start[ch] + Sum(Counts(c, s.stored, ch))
  }

  ghost predicate StripeOk(c: Config, s: State, q: nat)
    requires ConfigOk(c) && Shape(c, s) && q < c.stripes
  {
    s.sem[q] + Sum(Uses(c, s.pcs, q)) == c.limit
  }

  ghost predicate OutOk(c: Config, s: State) {
    s.out + Sum(OutUses(c, s.pcs)) == 1
  }

  ghost predicate Inv(c: Config, s: State) {
    && ConfigOk(c) && Shape(c, s)
    && (forall q: nat :: q < c.stripes ==> StripeOk(c, s, q))
    && OutOk(c, s)
    && (forall p: nat :: p < |c.inputs| ==> PcOk(c, s, p))
    && (forall ch: nat :: ch < c.alphabet ==> CountOk(c, s, ch))
  }

  lemma InitInv(c: Config)
    requires ConfigOk(c)
    ensures forall s :: Init(c, s) ==> Inv(c, s)
  {
    forall s | Init(c, s) ensures Inv(c, s) {
      forall q: nat | q < c.stripes ensures StripeOk(c, s, q) { SumZero(Uses(c, s.pcs, q)); }
      SumZero(OutUses(c, s.pcs));
      forall ch: nat | ch < c.alphabet ensures CountOk(c, s, ch) { SumZero(Counts(c, s.stored, ch)); }
    }
  }

  /** The semaphore of stripe q changes by what process p takes or gives back. */
  ghost predicate Balanced(c: Config, s: State, s': State, p: nat, q: nat)
    requires ConfigOk(c) && Shape(c, s) && Shape(c, s') && p < |c.inputs| && q < c.stripes
  {
    s'.sem[q] + Use(c, p, s'.pcs[p], q) == s.sem[q] + Use(c, p, s.pcs[p], q)
  }

  lemma StripeKept(c: Config, s: State, s': State, p: nat, q: nat)
    requires ConfigOk(c) && Shape(c, s) && Shape(c, s') && p < |c.inputs| && q < c.stripes
    requires s'.pcs == s.pcs[p := s'.pcs[p]] && Balanced(c, s, s', p, q) && StripeOk(c, s, q)
    ensures StripeOk(c, s', q)
  {
    SumUpdate(Uses(c, s.pcs, q), p, Use(c, p, s'.pcs[p], q));
    assert Uses(c, s'.pcs, q) == Uses(c, s.pcs, q)[p := Use(c, p, s'.pcs[p], q)];
  }

  lemma OutKept(c: Config, s: State, s': State, p: nat)
    requires Shape(c, s) && Shape(c, s') && p < |c.inputs| && OutOk(c, s)
    requires s'.pcs == s.pcs[p := s'.pcs[p]] && s'.out + OutUse(c, s'.pcs[p]) == s.out + OutUse(c, s.pcs[p])
    ensures OutOk(c, s')
  {
    SumUpdate(OutUses(c, s.pcs), p, OutUse(c, s'.pcs[p]));
    assert OutUses(c, s'.pcs) == OutUses(c, s.pcs)[p := OutUse(c, s'.pcs[p])];
  }

  /** What a step of process p may do to the state: counts never fall, and none that another process has just read
      changes. */
  ghost predicate OthersUntouched(c: Config, s: State, s': State, p: nat)
    requires ConfigOk(c) && Shape(c, s) && Shape(c, s') && p < |c.inputs|
  {
    && s'.pcs == s.pcs[p := s'.pcs[p]] && s'.stored == s.stored[p := s'.stored[p]]
    && (forall ch: nat :: ch < c.alphabet ==> s.counter[ch] <= s'.counter[ch])
    && (forall u: nat :: u < |c.inputs| && u != p && s.pcs[u].Incrementing? && s.pcs[u].k < |c.inputs[u]| ==>
          s'.counter[c.inputs[u][s.pcs[u].k]] == s.counter[c.inputs[u][s.pcs[u].k]])
  }

  lemma PcKept(c: Config, s: State, s': State, p: nat, u: nat)
    requires ConfigOk(c) && Shape(c, s) && Shape(c, s') && p < |c.inputs| && OthersUntouched(c, s, s', p)
    requires u < |c.inputs| && u != p && PcOk(c, s, u)
    ensures PcOk(c, s', u)
  {
  }

  /** A step of p that balances the semaphores, and after which its place and the counts are right. */
  ghost predicate Sound(c: Config, s: State, s': State, p: nat)
    requires ConfigOk(c) && Shape(c, s)
  {
    && p < |c.inputs| && Shape(c, s') && OthersUntouched(c, s, s', p)
    && (forall q: nat :: q < c.stripes ==> Balanced(c, s, s', p, q))
    && s'.out + OutUse(c, s'.pcs[p]) == s.out + OutUse(c, s.pcs[p])
    && PcOk(c, s', p)
    && (forall ch: nat :: ch < c.alphabet ==> CountOk(c, s', ch))
  }

  lemma Preserve(c: Config, s: State, s': State)
    requires Inv(c, s)
    ensures forall p: nat :: Sound(c, s, s', p) ==> Inv(c, s')
  {
    forall p: nat | Sound(c, s, s', p) ensures Inv(c, s') {
      forall q: nat | q < c.stripes ensures StripeOk(c, s', q) {
        assert StripeOk(c, s, q) && Balanced(c, s, s', p, q);
        StripeKept(c, s, s', p, q);
      }
      OutKept(c, s, s', p);
      forall u: nat | u < |c.inputs| ensures PcOk(c, s', u) {
        if u != p { PcKept(c, s, s', p, u); }
      }
    }
  }

  lemma CountsAtMost(c: Config, s: State, p: nat, ch: nat)
    requires Inv(c, s) && p < |c.inputs| && ch < c.alphabet
    ensures c.start[ch] + Occurs(Prefix(c.inputs[p], s.stored[p]), ch) <= s.counter[ch]
  {
    assert CountOk(c, s, ch);
    SumOne(Counts(c, s.stored, ch), p);
  }

  /** Each step takes from the semaphores what it uses from then on, and gives back what it no longer uses. */
  lemma StepBalanced(c: Config, s: State, s': State, p: nat)
    requires ProcessStep(c, s, s', p) && !StoreNew(c, s, s', p)
    ensures |s'.sem| == c.stripes && |s'.pcs| == |c.inputs| && s'.pcs == s.pcs[p := s'.pcs[p]]
    ensures forall q: nat :: q < c.stripes ==> s'.sem[q] + Use(c, p, s'.pcs[p], q) == s.sem[q] + Use(c, p, s.pcs[p], q)
    ensures s'.out + OutUse(c, s'.pcs[p]) == s.out + OutUse(c, s.pcs[p])
  {
  }

  /** All steps but the second half of an increment leave the counts alone. */
  lemma KeepOthers(c: Config, s: State, s': State)
    requires Inv(c, s)
    ensures forall p: nat :: ProcessStep(c, s, s', p) && !StoreNew(c, s, s', p) ==> Inv(c, s')
  {
    forall p: nat | ProcessStep(c, s, s', p) && !StoreNew(c, s, s', p) ensures Inv(c, s') {
      StepBalanced(c, s, s', p);
      NextPcOk(c, s, s');
      hide StripeOk, OutOk, CountOk, PcOk, Use, OutUse, StripeOf, Occurs, Prefix;
      forall ch: nat | ch < c.alphabet ensures CountOk(c, s', ch) { CountKept(c, s, s', ch); }
      assert Sound(c, s, s', p);
      Preserve(c, s, s');
    }
  }

  lemma CountKept(c: Config, s: State, s': State, ch: nat)
    requires ConfigOk(c) && Shape(c, s) && Shape(c, s') && ch < c.alphabet && CountOk(c, s, ch)
    requires s'.counter == s.counter && s'.stored == s.stored
    ensures CountOk(c, s', ch)
  {
  }

  lemma NextPcOk(c: Config, s: State, s': State)
    requires Inv(c, s)
    ensures forall p: nat :: ProcessStep(c, s, s', p) && !StoreNew(c, s, s', p) ==> Shape(c, s') && PcOk(c, s', p)
  {
    forall p: nat | ProcessStep(c, s, s', p) && !StoreNew(c, s, s', p) ensures Shape(c, s') && PcOk(c, s', p) {
      assert PcOk(c, s, p);
      if ReadCount(c, s, s', p) {
        CountsAtMost(c, s, p, |s.pcs[p].rep|);
        assert Prefix(c.inputs[p], |c.inputs[p]|) == c.inputs[p];
      }
      hide StripeOk, OutOk, CountOk, Use, OutUse, StripeOf, Occurs, Prefix;
    }
  }

  /** While one process holds all units of a stripe, no other holds any. */
  lemma WriterAlone(c: Config, s: State, p: nat, u: nat, q: nat)
    requires Inv(c, s) && p < |c.inputs| && u < |c.inputs| && u != p && q < c.stripes
    requires Use(c, p, s.pcs[p], q) == c.limit
    ensures Use(c, u, s.pcs[u], q) == 0
  {
    assert StripeOk(c, s, q);
    SumTwo(Uses(c, s.pcs, q), p, u);
  }

  /** Writing v + 1 adds one to the count, as no other process has read or written it in between. */
  lemma KeepStoreNew(c: Config, s: State, s': State)
    requires Inv(c, s)
    ensures forall p: nat :: p < |c.inputs| && StoreNew(c, s, s', p) ==>
      var ch := c.inputs[p][s.pcs[p].k];
      Inv(c, s') && s'.counter == s.counter[ch := s.counter[ch] + 1]
  {
    forall p: nat | p < |c.inputs| && StoreNew(c, s, s', p)
      ensures Inv(c, s') && s.pcs[p].v == s.counter[c.inputs[p][s.pcs[p].k]]
    {
      assert PcOk(c, s, p);
      var ch := c.inputs[p][s.pcs[p].k];
      forall u: nat | u < |c.inputs| && u != p && s.pcs[u].Incrementing? && s.pcs[u].k < |c.inputs[u]|
        ensures c.inputs[u][s.pcs[u].k] != ch
      {
        WriterAlone(c, s, p, u, StripeOf(c, ch));
      }
      forall x: nat | x < c.alphabet ensures CountOk(c, s', x) {
        assert CountOk(c, s, x);
        StoreCount(c, s, p, x);
      }
      assert Sound(c, s, s', p);
      hide StripeOk, OutOk, CountOk, StripeOf, Occurs, Prefix;
      Preserve(c, s, s');
    }
  }

  lemma StoreCount(c: Config, s: State, p: nat, x: nat)
    requires |s.stored| == |c.inputs| && p < |c.inputs| && s.stored[p] < |c.inputs[p]|
    ensures Sum(Counts(c, s.stored[p := s.stored[p] + 1], x)) ==
      Sum(Counts(c, s.stored, x)) + (if c.inputs[p][s.stored[p]] == x then 1 else 0)
  {
    var k := s.stored[p];
    var more := Occurs(Prefix(c.inputs[p], k + 1), x);
    assert c.inputs[p][..k + 1][..k] == c.inputs[p][..k];
    SumUpdate(Counts(c, s.stored, x), p, more);
    assert Counts(c, s.stored[p := k + 1], x) == Counts(c, s.stored, x)[p := more];
  }

  lemma StepKeepsInv(c: Config, s: State, s': State)
    requires Inv(c, s) && Step(c, s, s')
    ensures Inv(c, s')
  {
    var p: nat :| ProcessStep(c, s, s', p);
    if StoreNew(c, s, s', p) { KeepStoreNew(c, s, s'); } else { KeepOthers(c, s, s'); }
    hide *;
  }

  lemma {:induction false} RunInv(c: Config, run: seq<State>)
    requires ConfigOk(c) && IsRun(c, run)
    ensures forall i :: 0 <= i < |run| ==> Inv(c, run[i])
    decreases |run|
  {
    hide Inv, Init, Step, ConfigOk;
    if |run| == 1 {
      InitInv(c);
    } else {
      var rest := run[..|run| - 1];
      assert Step(c, run[|run| - 2], run[|run| - 2 + 1]);
      assert forall k :: 0 <= k < |rest| - 1 ==> Step(c, run[k], run[k + 1]) ==> Step(c, rest[k], rest[k + 1]);
      RunInv(c, rest);
      assert forall i :: 0 <= i < |rest| ==> run[i] == rest[i];
      StepKeepsInv(c, run[|run| - 2], run[|run| - 1]);
    }
  }

  /** The invariant holds in every state of every run. */
  lemma ReachableInv(c: Config)
    requires ConfigOk(c)
    ensures forall s :: Reachable(c, s) ==> Inv(c, s)
  {
    hide Inv, Init, Step, ConfigOk;
    forall s | Reachable(c, s) ensures Inv(c, s) {
      var run :| IsRun(c, run) && run[|run| - 1] == s;
      RunInv(c, run);
    }
  }
}
