/** The striped counter never stops before all processes have ended, and always stops
    (posix/ipc/shared-memory-count-output-semaphore.c). */
module StripedCounterProgress {
  import opened StripedCounter
  import opened StripedCounterReports
  import opened Sums

  // ---------------------------------------------------------------- progress

  predicate Ended(pc: Pc) { pc.Finished? || pc.Crashed? }

  ghost predicate CanStep(c: Config, s: State) {
    exists s', p: nat :: ConfigOk(c) && Shape(c, s) && p < |s.pcs| && OwnStep(c, s, s', p)
  }

  /** Neither counting up nor giving back ever waits. */
  lemma HolderProgress(c: Config, s: State, p: nat)
    requires Inv(c, s) && p < |c.inputs|
    requires s.pcs[p].Writing? || s.pcs[p].Incrementing? || s.pcs[p].Stored? || s.pcs[p].Reading? || s.pcs[p].HasRead?
    ensures CanStep(c, s)
  {
    assert PcOk(c, s, p);
    var pc := s.pcs[p];
    match pc
    case Writing(k) => assert OwnStep(c, s, s.(pcs := s.pcs[p := Incrementing(k, s.counter[c.inputs[p][k]])]), p);
    case Incrementing(k, v) =>
      assert OwnStep(c, s, s.(counter := s.counter[c.inputs[p][k] := v + 1], pcs := s.pcs[p := Stored(k)],
                              stored := s.stored[p := s.stored[p] + 1]), p);
    case Stored(k) =>
      var q := StripeOf(c, c.inputs[p][k]);
      assert OwnStep(c, s, s.(sem := s.sem[q := s.sem[q] + c.limit], pcs := s.pcs[p := Next(c, p, k + 1)]), p);
    case Reading(rep) => assert OwnStep(c, s, s.(pcs := s.pcs[p := HasRead(rep + [s.counter[|rep|]])]), p);
    case HasRead(rep) =>
      var q := StripeOf(c, |rep| - 1);
      assert OwnStep(c, s, s.(sem := s.sem[q := s.sem[q] + 1], pcs := s.pcs[p := Reporting(rep)]), p);
  }

  predicate InStripe(pc: Pc) { pc.Writing? || pc.Incrementing? || pc.Stored? || pc.Reading? || pc.HasRead? }

  lemma StripeFree(c: Config, s: State, q: nat)
    requires Inv(c, s) && q < c.stripes && forall p :: 0 <= p < |s.pcs| ==> !InStripe(s.pcs[p])
    ensures s.sem[q] == c.limit
  {
    assert StripeOk(c, s, q);
    SumZero(Uses(c, s.pcs, q));
  }

  /** With no process inside a stripe, whoever wants one gets it. */
  lemma TakerProgress(c: Config, s: State, p: nat)
    requires Inv(c, s) && p < |c.inputs| && (forall u :: 0 <= u < |s.pcs| ==> !InStripe(s.pcs[u]))
    requires s.pcs[p].Counting? || s.pcs[p].Reporting?
    ensures CanStep(c, s)
  {
    assert PcOk(c, s, p);
    var pc := s.pcs[p];
    if pc.Counting? {
      var q := StripeOf(c, c.inputs[p][pc.k]);
      StripeFree(c, s, q);
      assert OwnStep(c, s, s.(sem := s.sem[q := s.sem[q] - c.limit], pcs := s.pcs[p := Writing(pc.k)]), p);
    } else if |pc.rep| < c.alphabet {
      var q := StripeOf(c, |pc.rep|);
      StripeFree(c, s, q);
      assert OwnStep(c, s, s.(sem := s.sem[q := s.sem[q] - 1], pcs := s.pcs[p := Reading(pc.rep)]), p);
    } else {
      var out := if c.outputLock then s.out + 1 else s.out;
      assert OwnStep(c, s, s.(out := out, pcs := s.pcs[p := Finished(pc.rep)]), p);
    }
  }

  lemma OutputProgress(c: Config, s: State, p: nat)
    requires Inv(c, s) && p < |c.inputs| && s.pcs[p].WantOutput? && forall u :: 0 <= u < |s.pcs| ==> !InReport(s.pcs[u])
    ensures CanStep(c, s)
  {
    SumZero(OutUses(c, s.pcs));
    assert OwnStep(c, s, s.(out := if c.outputLock then s.out - 1 else s.out, pcs := s.pcs[p := Reporting([])]), p);
  }

  /** No reachable state is deadlocked: while a process has not ended, some process can go on without any crash,
      although a process that reports waits for stripes while it holds the output semaphore. */
  lemma NoDeadlock(c: Config, s: State)
    requires ConfigOk(c) && Reachable(c, s)
    ensures (forall p :: 0 <= p < |s.pcs| ==> Ended(s.pcs[p])) || CanStep(c, s)
  {
    hide Reachable, CanStep;
    ReachableInv(c);
    if u: nat :| u < |s.pcs| && InStripe(s.pcs[u]) {
      HolderProgress(c, s, u);
    } else if u: nat :| u < |s.pcs| && (s.pcs[u].Counting? || s.pcs[u].Reporting?) {
      TakerProgress(c, s, u);
    } else if u: nat :| u < |s.pcs| && s.pcs[u].WantOutput? {
      OutputProgress(c, s, u);
    }
  }

  // ---------------------------------------------------------------- every run ends

  /** How many steps process p still has to do. */
  function Work(c: Config, p: nat, pc: Pc): int
    requires p < |c.inputs|
  {
    var report := 3 * c.alphabet + 2;
    match pc
    case Counting(k) => 4 * (|c.inputs[p]| - k) + report
    case Writing(k) => 4 * (|c.inputs[p]| - k) - 1 + report
    case Incrementing(k, v) => 4 * (|c.inputs[p]| - k) - 2 + report
    case Stored(k) => 4 * (|c.inputs[p]| - k) - 3 + report
    case WantOutput => report
    case Reporting(rep) => 3 * (c.alphabet - |rep|) + 1
    case Reading(rep) => 3 * (c.alphabet - |rep|)
    case HasRead(rep) => 3 * (c.alphabet - |rep|) + 2
    case Finished(rep) => 0
    case Crashed => 0
  }

  function Works(c: Config, pcs: seq<Pc>): (r: seq<int>)
    requires |pcs| == |c.inputs|
    ensures |r| == |pcs| && forall p :: 0 <= p < |pcs| ==> r[p] == Work(c, p, pcs[p])
  {
    seq(|pcs|, p requires 0 <= p < |pcs| => Work(c, p, pcs[p]))
  }

  function TotalWork(c: Config): int {
    Sum(Works(c, seq(|c.inputs|, p requires 0 <= p < |c.inputs| => Next(c, p, 0))))
  }

  lemma ProcessDecreases(c: Config, s: State, s': State, p: nat)
    requires Inv(c, s) && ProcessStep(c, s, s', p)
    ensures Shape(c, s') && s'.pcs == s.pcs[p := s'.pcs[p]] && Work(c, p, s'.pcs[p]) < Work(c, p, s.pcs[p])
  {
    assert PcOk(c, s, p);
  }

  lemma StepDecreases(c: Config, s: State, s': State)
    requires Inv(c, s) && Step(c, s, s')
    ensures Shape(c, s') && Sum(Works(c, s'.pcs)) < Sum(Works(c, s.pcs))
  {
    var p: nat :| ProcessStep(c, s, s', p);
    ProcessDecreases(c, s, s', p);
    hide Work, OwnStep, Crash;
    SumUpdate(Works(c, s.pcs), p, Work(c, p, s'.pcs[p]));
    assert Works(c, s'.pcs) == Works(c, s.pcs)[p := Work(c, p, s'.pcs[p])];
  }

  lemma {:induction false} RunWork(c: Config, run: seq<State>)
    requires ConfigOk(c) && IsRun(c, run)
    ensures |run[|run| - 1].pcs| == |c.inputs| && |run| - 1 + Sum(Works(c, run[|run| - 1].pcs)) <= TotalWork(c)
    decreases |run|
  {
    hide Step, ConfigOk, StripeOk, OutOk, PcOk, CountOk;
    if |run| == 1 {
      InitInv(c);
      assert run[0].pcs == seq(|c.inputs|, p requires 0 <= p < |c.inputs| => Next(c, p, 0));
    } else {
      var rest := run[..|run| - 1];
      assert Step(c, run[|run| - 2], run[|run| - 2 + 1]);
      assert forall k :: 0 <= k < |rest| - 1 ==> Step(c, run[k], run[k + 1]) ==> Step(c, rest[k], rest[k + 1]);
      RunWork(c, rest);
      RunInv(c, rest);
      assert run[|run| - 2] == rest[|rest| - 1];
      StepDecreases(c, run[|run| - 2], run[|run| - 1]);
    }
  }

  /** No run takes more steps than the inputs and the reports ask for. */
  lemma RunEnds(c: Config, run: seq<State>)
    requires ConfigOk(c) && IsRun(c, run)
    ensures |run| - 1 <= TotalWork(c)
  {
    RunWork(c, run);
    RunInv(c, run);
    WorksLeft(c, run[|run| - 1]);
  }

  lemma WorksLeft(c: Config, s: State)
    requires Inv(c, s)
    ensures Sum(Works(c, s.pcs)) >= 0
  {
    forall p: nat | p < |c.inputs| ensures Work(c, p, s.pcs[p]) >= 0 { assert PcOk(c, s, p); }
    SumNat(Works(c, s.pcs));
  }
}
