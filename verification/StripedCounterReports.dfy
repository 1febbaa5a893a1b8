/** What the semaphores of the striped counter achieve: exclusion, exact counts and ordered reports
    (posix/ipc/shared-memory-count-output-semaphore.c, shared-memory-count.c). */
module StripedCounterReports {
  import opened StripedCounter
  import opened Sums

  // ---------------------------------------------------------------- the semaphores

  predicate IsWriter(c: Config, p: nat, pc: Pc, q: nat)
    requires c.stripes > 0 && p < |c.inputs|
  {
    (pc.Writing? || pc.Incrementing? || pc.Stored?) && pc.k < |c.inputs[p]| && StripeOf(c, c.inputs[p][pc.k]) == q
  }

  predicate IsReader(c: Config, pc: Pc, q: nat)
    requires c.stripes > 0
  {
    (pc.Reading? && StripeOf(c, |pc.rep|) == q) || (pc.HasRead? && |pc.rep| > 0 && StripeOf(c, |pc.rep| - 1) == q)
  }

  ghost function Writers(c: Config, s: State, q: nat, n: nat): set<nat>
    requires c.stripes > 0 && n <= |c.inputs| == |s.pcs|
  {
    set p: nat | p < n && IsWriter(c, p, s.pcs[p], q)
  }

  ghost function Readers(c: Config, s: State, q: nat, n: nat): set<nat>
    requires c.stripes > 0 && n <= |s.pcs|
  {
    set p: nat | p < n && IsReader(c, s.pcs[p], q)
  }

  lemma OneMore(c: Config, s: State, q: nat, n: nat)
    requires c.stripes > 0 && n < |c.inputs| == |s.pcs|
    ensures |Writers(c, s, q, n + 1)| == |Writers(c, s, q, n)| + (if IsWriter(c, n, s.pcs[n], q) then 1 else 0)
    ensures |Readers(c, s, q, n + 1)| == |Readers(c, s, q, n)| + (if IsReader(c, s.pcs[n], q) then 1 else 0)
  {
    hide IsWriter, IsReader;
    var writers, readers := Writers(c, s, q, n), Readers(c, s, q, n);
    assert n !in writers && n !in readers;
    assert Writers(c, s, q, n + 1) == if IsWriter(c, n, s.pcs[n], q) then writers + {n} else writers;
    assert Readers(c, s, q, n + 1) == if IsReader(c, s.pcs[n], q) then readers + {n} else readers;
  }

  lemma UseByRole(c: Config, p: nat, pc: Pc, q: nat)
    requires c.stripes > 0 && p < |c.inputs|
    ensures Use(c, p, pc, q) == if IsWriter(c, p, pc, q) then c.limit else if IsReader(c, pc, q) then 1 else 0
    ensures !(IsWriter(c, p, pc, q) && IsReader(c, pc, q))
  {
  }

  lemma {:induction false} UsesCounted(c: Config, s: State, q: nat, n: nat)
    requires c.stripes > 0 && n <= |c.inputs| == |s.pcs|
    ensures Sum(Uses(c, s.pcs, q)[..n]) == c.limit * |Writers(c, s, q, n)| + |Readers(c, s, q, n)|
  {
    if n == 0 {
      assert Writers(c, s, q, 0) == {} && Readers(c, s, q, 0) == {};
    } else {
      UsesCounted(c, s, q, n - 1);
      assert Uses(c, s.pcs, q)[..n][..n - 1] == Uses(c, s.pcs, q)[..n - 1];
      OneMore(c, s, q, n - 1);
      UseByRole(c, n - 1, s.pcs[n - 1], q);
      Distribute(c.limit, |Writers(c, s, q, n - 1)|);
      hide Use, IsWriter, IsReader, Writers, Readers, Uses;
    }
  }

  lemma Distribute(x: nat, y: nat)
    ensures x * (y + 1) == x * y + x
  {
  }

  /** The value of a stripe's semaphore, limit for each writer, and one for each reader, add up to limit, crashes or
      not. */
  lemma StripeValue(c: Config, s: State, q: nat)
    requires ConfigOk(c) && Reachable(c, s) && q < c.stripes
    ensures |s.sem| == c.stripes && |s.pcs| == |c.inputs|
    ensures s.sem[q] + c.limit * |Writers(c, s, q, |c.inputs|)| + |Readers(c, s, q, |c.inputs|)| == c.limit
  {
    hide Reachable;
    ReachableInv(c);
    assert StripeOk(c, s, q);
    UsesCounted(c, s, q, |c.inputs|);
    assert Uses(c, s.pcs, q)[..|c.inputs|] == Uses(c, s.pcs, q);
  }

  /** A writer is alone in its stripe: no second writer and no reader. */
  lemma WriterExcludes(c: Config, s: State, p: nat, u: nat, q: nat)
    requires ConfigOk(c) && Reachable(c, s) && p < |c.inputs| && u < |c.inputs| && u != p && q < c.stripes
    ensures |s.pcs| == |c.inputs|
    ensures IsWriter(c, p, s.pcs[p], q) ==> !IsWriter(c, u, s.pcs[u], q) && !IsReader(c, s.pcs[u], q)
  {
    hide Reachable;
    ReachableInv(c);
    if IsWriter(c, p, s.pcs[p], q) { WriterAlone(c, s, p, u, q); }
  }

  predicate InReport(pc: Pc) { pc.Reporting? || pc.Reading? || pc.HasRead? }

  /** With the output semaphore, reports never overlap. */
  lemma ReportsDisjoint(c: Config, s: State, p: nat, u: nat)
    requires ConfigOk(c) && Reachable(c, s) && c.outputLock && p < |c.inputs| && u < |c.inputs| && u != p
    ensures |s.pcs| == |c.inputs| && !(InReport(s.pcs[p]) && InReport(s.pcs[u]))
  {
    hide Reachable;
    ReachableInv(c);
    SumTwo(OutUses(c, s.pcs), p, u);
  }

  // ---------------------------------------------------------------- the counts

  /** In every reachable state the count of ch is the starting count and one for each increment that a process has
      written; the only occurrences not counted are those a process had still ahead when it crashed. */
  lemma NoIncrementLost(c: Config, s: State, ch: nat)
    requires ConfigOk(c) && Reachable(c, s) && ch < c.alphabet
    ensures |s.counter| == c.alphabet && |s.pcs| == |s.stored| == |c.inputs|
    ensures s.counter[ch] == c.start[ch] + Sum(Counts(c, s.stored, ch))
    ensures forall p :: 0 <= p < |c.inputs| ==> s.stored[p] <= |c.inputs[p]|
    ensures forall p :: 0 <= p < |c.inputs| && s.pcs[p].Finished? ==> s.stored[p] == |c.inputs[p]|
  {
    hide Reachable;
    ReachableInv(c);
    assert CountOk(c, s, ch);
    forall p | 0 <= p < |c.inputs|
      ensures s.stored[p] <= |c.inputs[p]| && (s.pcs[p].Finished? ==> s.stored[p] == |c.inputs[p]|)
    {
      assert PcOk(c, s, p);
    }
  }

  function Totals(c: Config, ch: nat): (r: seq<int>)
    ensures |r| == |c.inputs| && forall p :: 0 <= p < |r| ==> r[p] == Occurs(c.inputs[p], ch)
  {
    seq(|c.inputs|, p requires 0 <= p < |c.inputs| => Occurs(c.inputs[p], ch))
  }

  lemma {:induction false} OccursCounted(input: seq<nat>, ch: nat)
    ensures Occurs(input, ch) == |set k: nat | k < |input| && input[k] == ch|
  {
    var places := set k: nat | k < |input| && input[k] == ch;
    if input == [] {
      assert places == {};
    } else {
      var front, last := input[..|input| - 1], |input| - 1;
      OccursCounted(front, ch);
      var before := set k: nat | k < |front| && front[k] == ch;
      hide Occurs;
      assert forall k :: 0 <= k < last ==> front[k] == input[k];
      assert places == if input[last] == ch then before + {last} else before;
    }
  }

  /** The sum counts all places in all inputs. */
  lemma TotalsCounted(c: Config, ch: nat)
    ensures Sum(Totals(c, ch))
         == |set p: nat, k: nat | p < |c.inputs| && k < |c.inputs[p]| && c.inputs[p][k] == ch :: (p, k)|
  {
    var sets: seq<set<nat>> := seq(|c.inputs|, p requires 0 <= p < |c.inputs| =>
      set k: nat | k < |c.inputs[p]| && c.inputs[p][k] == ch);
    forall p | 0 <= p < |c.inputs| ensures Totals(c, ch)[p] == |sets[p]| { OccursCounted(c.inputs[p], ch); }
    SumOfCards(sets, Totals(c, ch));
    assert Tagged(sets)
        == set p: nat, k: nat | p < |c.inputs| && k < |c.inputs[p]| && c.inputs[p][k] == ch :: (p, k);
  }

  /** When all processes have finished, the counts are exactly the occurrences in all inputs. */
  lemma FinalCounts(c: Config, s: State, ch: nat)
    requires ConfigOk(c) && Reachable(c, s) && ch < c.alphabet
    requires forall p :: 0 <= p < |s.pcs| ==> s.pcs[p].Finished?
    ensures |s.counter| == c.alphabet && s.counter[ch] == c.start[ch] + Sum(Totals(c, ch))
    ensures s.counter[ch] == c.start[ch]
      + |set p: nat, k: nat | p < |c.inputs| && k < |c.inputs[p]| && c.inputs[p][k] == ch :: (p, k)|
  {
    TotalsCounted(c, ch);
    hide Reachable;
    NoIncrementLost(c, s, ch);
    forall p | 0 <= p < |c.inputs| ensures Counts(c, s.stored, ch)[p] == Totals(c, ch)[p] {
      assert Prefix(c.inputs[p], |c.inputs[p]|) == c.inputs[p];
    }
    assert Counts(c, s.stored, ch) == Totals(c, ch);
  }

  /** A reported count contains the starting count and all of the process's own occurrences, and is not ahead of the
      count in the array. */
  lemma ReportedCount(c: Config, s: State, p: nat, ch: nat)
    requires ConfigOk(c) && Reachable(c, s) && p < |c.inputs| && p < |s.pcs|
    requires (InReport(s.pcs[p]) || s.pcs[p].Finished?) && ch < |s.pcs[p].rep|
    ensures |s.counter| == c.alphabet && ch < c.alphabet
    ensures c.start[ch] + Occurs(c.inputs[p], ch) <= s.pcs[p].rep[ch] <= s.counter[ch]
    ensures s.pcs[p].Finished? ==> |s.pcs[p].rep| == c.alphabet
  {
    hide Reachable;
    ReachableInv(c);
    assert PcOk(c, s, p);
  }

  /** A count is read while no process writes in its stripe. */
  lemma ReadsUndisturbed(c: Config, s: State, s': State, p: nat, u: nat)
    requires ConfigOk(c) && Reachable(c, s) && Shape(c, s) && p < |c.inputs| && u < |c.inputs| && ReadCount(c, s, s', p)
    ensures !IsWriter(c, u, s.pcs[u], StripeOf(c, |s.pcs[p].rep|))
  {
    hide Reachable;
    if u != p { WriterExcludes(c, s, u, p, StripeOf(c, |s.pcs[p].rep|)); }
  }

  // ---------------------------------------------------------------- reports are ordered

  /** Each count of r is at most that of t, as far as both go. */
  predicate AtMost(r: seq<int>, t: seq<int>) {
    forall ch :: 0 <= ch < |r| && ch < |t| ==> r[ch] <= t[ch]
  }

  /** A report in progress is not behind any finished one, and finished ones are ordered. */
  ghost predicate Ordered(s: State) {
    && (forall p, u :: 0 <= p < |s.pcs| && 0 <= u < |s.pcs| && s.pcs[p].Finished? && InReport(s.pcs[u]) ==>
          AtMost(s.pcs[p].rep, s.pcs[u].rep))
    && (forall p, u :: 0 <= p < |s.pcs| && 0 <= u < |s.pcs| && s.pcs[p].Finished? && s.pcs[u].Finished? ==>
          AtMost(s.pcs[p].rep, s.pcs[u].rep) || AtMost(s.pcs[u].rep, s.pcs[p].rep))
  }

  lemma StepKeepsOrdered(c: Config, s: State, s': State)
    requires Inv(c, s) && Ordered(s) && c.outputLock && Step(c, s, s')
    ensures Ordered(s')
  {
    var p :| ProcessStep(c, s, s', p);
    hide Inv;
    if ReadCount(c, s, s', p) {
      ReadKeepsOrdered(c, s, s', p);
    } else if GiveOutput(c, s, s', p) {
      GiveKeepsOrdered(c, s, s', p);
    } else {
      OtherKeepsOrdered(s, s', p);
    }
  }

  lemma OtherKeepsOrdered(s: State, s': State, p: nat)
    requires Ordered(s) && p < |s.pcs| == |s'.pcs| && s'.pcs == s.pcs[p := s'.pcs[p]] && !s'.pcs[p].Finished?
    requires InReport(s'.pcs[p]) ==> s'.pcs[p].rep == [] || (InReport(s.pcs[p]) && s'.pcs[p].rep == s.pcs[p].rep)
    ensures Ordered(s')
  {
  }

  lemma ReadKeepsOrdered(c: Config, s: State, s': State, p: nat)
    requires Inv(c, s) && Ordered(s) && p < |s.pcs| && ReadCount(c, s, s', p)
    ensures Ordered(s')
  {
    forall f | 0 <= f < |s.pcs| && s.pcs[f].Finished? ensures AtMost(s.pcs[f].rep, s'.pcs[p].rep) {
      assert PcOk(c, s, f) && AtMost(s.pcs[f].rep, s.pcs[p].rep);
    }
  }

  lemma GiveKeepsOrdered(c: Config, s: State, s': State, p: nat)
    requires Inv(c, s) && Ordered(s) && c.outputLock && p < |s.pcs| && GiveOutput(c, s, s', p)
    ensures Ordered(s')
  {
    forall u: nat | u < |s.pcs| && u != p ensures !InReport(s.pcs[u]) { SumTwo(OutUses(c, s.pcs), p, u); }
  }

  lemma {:induction false} RunOrdered(c: Config, run: seq<State>)
    requires ConfigOk(c) && IsRun(c, run) && c.outputLock
    ensures Ordered(run[|run| - 1])
    decreases |run|
  {
    hide Inv, Step, ConfigOk, Ordered;
    if |run| == 1 {
      InitOrdered(c, run[0]);
    } else {
      var rest := run[..|run| - 1];
      assert Step(c, run[|run| - 2], run[|run| - 2 + 1]);
      assert forall k :: 0 <= k < |rest| - 1 ==> Step(c, run[k], run[k + 1]) ==> Step(c, rest[k], rest[k + 1]);
      RunOrdered(c, rest);
      RunInv(c, rest);
      StepKeepsOrdered(c, run[|run| - 2], run[|run| - 1]);
    }
  }

  lemma InitOrdered(c: Config, s: State)
    requires Init(c, s)
    ensures Ordered(s)
  {
  }

  /** With the output semaphore, of any two finished reports one is nowhere behind the other. */
  lemma ReportsOrdered(c: Config, s: State, p: nat, u: nat)
    requires ConfigOk(c) && Reachable(c, s) && c.outputLock
    requires p < |s.pcs| && u < |s.pcs| && s.pcs[p].Finished? && s.pcs[u].Finished?
    ensures AtMost(s.pcs[p].rep, s.pcs[u].rep) || AtMost(s.pcs[u].rep, s.pcs[p].rep)
  {
    hide Init, Step;
    var run :| IsRun(c, run) && run[|run| - 1] == s;
    RunOrdered(c, run);
  }
}
