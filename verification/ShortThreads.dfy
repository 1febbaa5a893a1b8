/** The threads of thread-memory-count-shorts-mutex.c together: every thread reads its file in chunks of any sizes and
    counts their pairs in the shared array, while the main thread starts them, prints a line and joins them. */
module ShortThreads {
  import opened Bytes
  import opened Sums
  import opened StripedCounter
  import opened StripedCounterReports
  import opened StripedCounterProgress
  import opened ShortCount

  datatype Main =
    | Creating(i: nat)  // about to start thread i, or with all started, to take the output mutex
    | Printing          // has it
    | Joining(i: nat)   // about to join thread i, or with all joined, done

  /** threads holds the mutexes, the counters and the threads' places; a thread that wants the output mutex while its
      reader is not at the end of the file is about to read. scripts[p] are the pairs that p's reads have brought. */
  datatype Program = Program(threads: State, readers: seq<Reader>, scripts: seq<seq<nat>>, main: Main)

  /** One mutex per value, one for the output, all counters zero at the start. */
  function Counters(inputs: seq<seq<nat>>): Config {
    Config(ARRAY_SIZE, ARRAY_SIZE, 1, true, inputs, seq(ARRAY_SIZE, s => 0))
  }

  /** The pairs of each file. */
  function AllPairs(files: seq<seq<Byte>>): (r: seq<seq<nat>>)
    ensures |r| == |files| && forall p :: 0 <= p < |r| ==> r[p] == Shorts(files[p])
  {
    seq(|files|, p requires 0 <= p < |files| => Shorts(files[p]))
  }

  // ---------------------------------------------------------------- steps

  ghost predicate ProgramShape(files: seq<seq<Byte>>, s: Program) {
    |s.readers| == |s.scripts| == |files| && Shape(Counters(s.scripts), s.threads)
  }

  ghost predicate ProgramInit(files: seq<seq<Byte>>, s: Program) {
    && ProgramShape(files, s) && Init(Counters(s.scripts), s.threads) && s.main == Creating(0)
    && forall p :: 0 <= p < |files| ==> s.readers[p] == Reader(0, [], false) && s.scripts[p] == []
  }

  ghost predicate CreateThread(files: seq<seq<Byte>>, s: Program, s': Program) {
    s.main.Creating? && s.main.i < |files| && s' == s.(main := Creating(s.main.i + 1))
  }

  ghost predicate TakePrint(files: seq<seq<Byte>>, s: Program, s': Program) {
    && s.main == Creating(|files|) && s.threads.out >= 1
    && s' == s.(main := Printing, threads := s.threads.(out := s.threads.out - 1))
  }

  ghost predicate GivePrint(s: Program, s': Program) {
    s.main.Printing? && s' == s.(main := Joining(0), threads := s.threads.(out := s.threads.out + 1))
  }

  ghost predicate Join(files: seq<seq<Byte>>, s: Program, s': Program) {
    && s.main.Joining? && s.main.i < |files| && s.main.i < |s.threads.pcs| && s.threads.pcs[s.main.i].Finished?
    && s' == s.(main := Joining(s.main.i + 1))
  }

  predicate Created(s: Program, p: nat) { s.main.Creating? ==> p < s.main.i }

  predicate WantsRead(s: Program, p: nat)
    requires p < |s.threads.pcs| && p < |s.readers|
  {
    s.threads.pcs[p].WantOutput? && !s.readers[p].eof
  }

  /** read() returns size bytes, and the loop over their pairs begins. */
  ghost predicate ReadStep(files: seq<seq<Byte>>, room: nat, s: Program, s': Program, p: nat, size: nat) {
    && ProgramShape(files, s) && p < |files| && Created(s, p) && WantsRead(s, p)
    && MayRead(files[p], s.readers[p], size, room)
    && var scripts := s.scripts[p := s.scripts[p] + Pairs(files[p], s.readers[p], size)];
       s' == s.(readers := s.readers[p := AfterRead(files[p], s.readers[p], size)], scripts := scripts,
                threads := s.threads.(pcs := s.threads.pcs[p := Next(Counters(scripts), p, |s.scripts[p]|)]))
  }

  /** A thread counts the pairs that its reads have brought, or reports. */
  ghost predicate CountStep(files: seq<seq<Byte>>, s: Program, s': Program, p: nat) {
    && ProgramShape(files, s) && p < |files| && Created(s, p) && !WantsRead(s, p) && ConfigOk(Counters(s.scripts))
    && OwnStep(Counters(s.scripts), s.threads, s'.threads, p) && s' == s.(threads := s'.threads)
  }

  ghost predicate MainStep(files: seq<seq<Byte>>, s: Program, s': Program) {
    CreateThread(files, s, s') || TakePrint(files, s, s') || GivePrint(s, s') || Join(files, s, s')
  }

  /** room is the size of a thread's buffer. */
  ghost predicate ProgramStep(files: seq<seq<Byte>>, room: nat, s: Program, s': Program) {
    || MainStep(files, s, s') || (exists p :: CountStep(files, s, s', p))
    || (exists p, size :: ReadStep(files, room, s, s', p, size))
  }

  ghost predicate IsProgramRun(files: seq<seq<Byte>>, room: nat, run: seq<Program>) {
    && |run| > 0 && ProgramInit(files, run[0])
    && forall k :: 0 <= k < |run| - 1 ==> ProgramStep(files, room, run[k], run[k + 1])
  }

  ghost predicate ProgramReachable(files: seq<seq<Byte>>, room: nat, s: Program) {
    exists run :: IsProgramRun(files, room, run) && run[|run| - 1] == s
  }

  // ---------------------------------------------------------------- the counter with all pairs known in advance

  /** Where thread p would be if it knew all its pairs: between two reads it is at the next pair. */
  function PlaceOf(files: seq<seq<Byte>>, s: Program, p: nat): Pc
    requires p < |files| && ProgramShape(files, s)
  {
    if WantsRead(s, p) then Next(Counters(AllPairs(files)), p, |s.scripts[p]|) else s.threads.pcs[p]
  }

  function Places(files: seq<seq<Byte>>, s: Program): (r: seq<Pc>)
    requires ProgramShape(files, s)
    ensures |r| == |files| && forall p :: 0 <= p < |r| ==> r[p] == PlaceOf(files, s, p)
  {
    seq(|files|, p requires 0 <= p < |files| => PlaceOf(files, s, p))
  }

  /** The counter's state: there the main thread does not appear, and what it holds of the output mutex is free. */
  function Abstract(files: seq<seq<Byte>>, s: Program): State
    requires ProgramShape(files, s)
  {
    s.threads.(out := s.threads.out + (if s.main.Printing? then 1 else 0), pcs := Places(files, s))
  }

  predicate InScript(pc: Pc, n: nat) {
    pc.Counting? || pc.Writing? || pc.Incrementing? || pc.Stored? ==> pc.k < n
  }

  ghost predicate ThreadOk(files: seq<seq<Byte>>, s: Program, p: nat)
    requires p < |files| && ProgramShape(files, s)
  {
    && Tracks(files[p], s.readers[p], s.scripts[p]) && InScript(s.threads.pcs[p], |s.scripts[p]|)
    && !s.threads.pcs[p].Crashed?
  }

  ghost predicate MainOk(files: seq<seq<Byte>>, s: Program)
    requires ProgramShape(files, s)
  {
    match s.main
    case Creating(i) => i <= |files|
    case Printing => true
    case Joining(i) => i <= |files| && forall p :: 0 <= p < i ==> s.threads.pcs[p].Finished?
  }

  ghost predicate ProgramInv(files: seq<seq<Byte>>, s: Program) {
    ProgramShape(files, s) && (forall p: nat :: p < |files| ==> ThreadOk(files, s, p)) && MainOk(files, s)
  }

  lemma {:induction false} ShortsInRange(file: seq<Byte>)
    ensures forall k :: 0 <= k < |Shorts(file)| ==> Shorts(file)[k] < ARRAY_SIZE
  {
    if |file| > 1 { ShortsInRange(file[2..]); }
  }

  lemma CountersOk(files: seq<seq<Byte>>)
    ensures ConfigOk(Counters(AllPairs(files)))
  {
    forall p | 0 <= p < |files| ensures forall k :: 0 <= k < |Shorts(files[p])| ==> Shorts(files[p])[k] < ARRAY_SIZE {
      ShortsInRange(files[p]);
    }
  }

  /** What the reads have brought is the beginning of the file's pairs. */
  lemma ScriptIsPrefix(file: seq<Byte>, r: Reader, script: seq<nat>)
    requires Tracks(file, r, script)
    ensures script <= Shorts(file)
  {
    if !r.eof {
      var n := r.offset - |r.carry|;
      ShortsAppend(file[..n], file[n..]);
      assert file[..n] + file[n..] == file;
    }
  }

  // ---------------------------------------------------------------- every step is one of that counter, or none

  /** A step with the pairs known so far is also one with more pairs known, and with more of the output mutex free. */
  lemma StepWithMore(c: Config, d: Config, s: State, s': State, t: State, p: nat, free: nat)
    requires ConfigOk(c) && ConfigOk(d) && d == c.(inputs := d.inputs) && |c.inputs| == |d.inputs| && p < |c.inputs|
    requires c.inputs[p] <= d.inputs[p] && Shape(c, s) && OwnStep(c, s, s', p)
    requires |t.pcs| == |s.pcs| && t == s.(out := s.out + free, pcs := t.pcs) && t.pcs[p] == s.pcs[p]
    ensures |s'.pcs| == |s.pcs| && s'.pcs == s.pcs[p := s'.pcs[p]]
    ensures var pc := if s.pcs[p].Stored? then Next(d, p, s.pcs[p].k + 1) else s'.pcs[p];
      OwnStep(d, t, s'.(out := s'.out + free, pcs := t.pcs[p := pc]), p)
  {
  }

  /** The other way round, as far as the thread's next pair is known. */
  lemma StepWithLess(c: Config, d: Config, t: State, t': State, s: State, p: nat)
    requires ConfigOk(c) && ConfigOk(d) && d == c.(inputs := d.inputs) && |c.inputs| == |d.inputs| && p < |c.inputs|
    requires c.inputs[p] <= d.inputs[p] && Shape(d, t) && OwnStep(d, t, t', p)
    requires |t.pcs| == |s.pcs| && t == s.(pcs := t.pcs) && t.pcs[p] == s.pcs[p] && InScript(s.pcs[p], |c.inputs[p]|)
    ensures exists s' :: OwnStep(c, s, s', p)
  {
    var pc := if t.pcs[p].Stored? then Next(c, p, t.pcs[p].k + 1) else t'.pcs[p];
    assert OwnStep(c, s, t'.(pcs := s.pcs[p := pc]), p);
  }

  ghost predicate Refines(files: seq<seq<Byte>>, s: Program, s': Program) {
    && ProgramInv(files, s) && ProgramInv(files, s')
    && (Abstract(files, s') == Abstract(files, s)
      || Step(Counters(AllPairs(files)), Abstract(files, s), Abstract(files, s')))
  }

  lemma CountRefines(files: seq<seq<Byte>>, s: Program, s': Program)
    requires ProgramInv(files, s)
    ensures forall p: nat :: CountStep(files, s, s', p) ==>
      Refines(files, s, s') && Step(Counters(AllPairs(files)), Abstract(files, s), Abstract(files, s'))
  {
    var c, d, a := Counters(s.scripts), Counters(AllPairs(files)), Abstract(files, s);
    var free := if s.main.Printing? then 1 else 0;
    CountersOk(files);
    forall p: nat | CountStep(files, s, s', p) ensures Refines(files, s, s') && Step(d, a, Abstract(files, s')) {
      assert ThreadOk(files, s, p);
      ScriptIsPrefix(files[p], s.readers[p], s.scripts[p]);
      StepWithMore(c, d, s.threads, s'.threads, a, p, free);
      CountKeeps(files, s, s', p);
      hide OwnStep, Tracks, Shorts, AllPairs, ConfigOk;
      assert PlaceOf(files, s', p) == if a.pcs[p].Stored? then Next(d, p, a.pcs[p].k + 1) else s'.threads.pcs[p];
      assert Places(files, s') == Places(files, s)[p := PlaceOf(files, s', p)];
      assert ProcessStep(d, a, Abstract(files, s'), p);
    }
  }

  lemma CountKeeps(files: seq<seq<Byte>>, s: Program, s': Program, p: nat)
    requires ProgramInv(files, s) && CountStep(files, s, s', p)
    ensures ProgramInv(files, s') && s'.threads.pcs == s.threads.pcs[p := s'.threads.pcs[p]]
  {
    hide Tracks;
    assert ThreadOk(files, s, p);
    forall u: nat | u < |files| ensures ThreadOk(files, s', u) { assert ThreadOk(files, s, u); }
  }

  lemma ReadRefines(files: seq<seq<Byte>>, room: nat, s: Program, s': Program)
    requires ProgramInv(files, s)
    ensures forall p: nat, size: nat :: ReadStep(files, room, s, s', p, size) ==>
      Refines(files, s, s') && Abstract(files, s') == Abstract(files, s)
  {
    forall p: nat, size: nat | ReadStep(files, room, s, s', p, size)
      ensures Refines(files, s, s') && Abstract(files, s') == Abstract(files, s)
    {
      assert ThreadOk(files, s, p);
      ReadKeepsTrack(files[p], s.readers[p], s.scripts[p], size, room);
      ScriptIsPrefix(files[p], s'.readers[p], s'.scripts[p]);
      hide Tracks, Shorts, AllPairs, Pairs, AfterRead, Chunk;
      forall u: nat | u < |files| ensures ThreadOk(files, s', u) && PlaceOf(files, s', u) == PlaceOf(files, s, u) {
        assert ThreadOk(files, s, u);
      }
      assert Places(files, s') == Places(files, s);
    }
  }

  lemma MainRefines(files: seq<seq<Byte>>, s: Program, s': Program)
    requires ProgramInv(files, s) && MainStep(files, s, s')
    ensures Refines(files, s, s') && Abstract(files, s') == Abstract(files, s)
  {
    hide Tracks;
    forall u: nat | u < |files| ensures ThreadOk(files, s', u) { assert ThreadOk(files, s, u); }
    assert Places(files, s') == Places(files, s);
  }

  /** Reads and the main thread change nothing in the counter with all pairs known; everything else is one of its
      steps. */
  lemma StepRefines(files: seq<seq<Byte>>, room: nat, s: Program, s': Program)
    requires ProgramInv(files, s) && ProgramStep(files, room, s, s')
    ensures Refines(files, s, s')
  {
    hide ProgramInv, Refines, MainStep, CountStep, ReadStep;
    if MainStep(files, s, s') {
      MainRefines(files, s, s');
    } else {
      CountRefines(files, s, s');
      ReadRefines(files, room, s, s');
    }
  }

  lemma InitRefines(files: seq<seq<Byte>>, s: Program)
    requires ProgramInit(files, s)
    ensures ProgramInv(files, s) && Init(Counters(AllPairs(files)), Abstract(files, s))
  {
    hide Tracks, Shorts, AllPairs;
    forall p: nat | p < |files|
      ensures ThreadOk(files, s, p) && PlaceOf(files, s, p) == Next(Counters(AllPairs(files)), p, 0)
    {
      StartTracks(files[p]);
      assert s.threads.pcs[p] == Next(Counters(s.scripts), p, 0) == WantOutput;
    }
  }

  /** The threads keep the invariant, and seen with all pairs known they are the counter. */
  lemma {:induction false} RunRefines(files: seq<seq<Byte>>, room: nat, run: seq<Program>)
    requires IsProgramRun(files, room, run)
    ensures forall i :: 0 <= i < |run| ==>
      ProgramInv(files, run[i]) && Reachable(Counters(AllPairs(files)), Abstract(files, run[i]))
    decreases |run|
  {
    hide ProgramInit, ProgramStep, Reachable, Abstract, AllPairs, Init, Step;
    var c := Counters(AllPairs(files));
    if |run| == 1 {
      InitRefines(files, run[0]);
      StartsReachable(c, Abstract(files, run[0]));
    } else {
      var rest := run[..|run| - 1];
      assert ProgramStep(files, room, run[|run| - 2], run[|run| - 2 + 1]);
      assert forall k :: 0 <= k < |rest| - 1 && ProgramStep(files, room, run[k], run[k + 1]) ==>
        ProgramStep(files, room, rest[k], rest[k + 1]);
      RunRefines(files, room, rest);
      assert forall i :: 0 <= i < |rest| ==> run[i] == rest[i];
      hide ProgramInv;
      StepRefines(files, room, run[|run| - 2], run[|run| - 1]);
      if Abstract(files, run[|run| - 1]) != Abstract(files, run[|run| - 2]) {
        StaysReachable(c, Abstract(files, run[|run| - 2]), Abstract(files, run[|run| - 1]));
      }
    }
  }

  lemma StartsReachable(c: Config, s: State)
    requires Init(c, s)
    ensures Reachable(c, s)
  {
    assert IsRun(c, [s]) && [s][|[s]| - 1] == s;
  }

  lemma StaysReachable(c: Config, s: State, s': State)
    requires Reachable(c, s) && Step(c, s, s')
    ensures Reachable(c, s')
  {
    hide Init, Step;
    var run :| IsRun(c, run) && run[|run| - 1] == s;
    var longer := run + [s'];
    assert forall k :: 0 <= k < |run| - 1 ==> Step(c, run[k], run[k + 1]) ==> Step(c, longer[k], longer[k + 1]);
    assert IsRun(c, longer) && longer[|longer| - 1] == s';
  }

  /** For every chunking of the reads and every interleaving, the threads refine the counter that knows all pairs of the
      files in advance. */
  lemma ThreadsRefine(files: seq<seq<Byte>>, room: nat)
    ensures forall s :: ProgramReachable(files, room, s) ==>
      ProgramInv(files, s) && Reachable(Counters(AllPairs(files)), Abstract(files, s))
  {
    hide ProgramInit, ProgramStep, ThreadOk, Reachable;
    forall s | ProgramReachable(files, room, s)
      ensures ProgramInv(files, s) && Reachable(Counters(AllPairs(files)), Abstract(files, s))
    {
      var run :| IsProgramRun(files, room, run) && run[|run| - 1] == s;
      RunRefines(files, room, run);
    }
  }

  // ---------------------------------------------------------------- what follows

  /** How often v occurs among the pairs of each file. */
  function PairCounts(files: seq<seq<Byte>>, v: nat): (r: seq<int>)
    ensures |r| == |files| && forall p :: 0 <= p < |r| ==> r[p] == Occurs(Shorts(files[p]), v)
  {
    seq(|files|, p requires 0 <= p < |files| => Occurs(Shorts(files[p]), v))
  }

  /** The even positions of file at which a pair of value v starts, low byte first. */
  ghost function EvenPlaces(file: seq<Byte>, v: nat): set<nat> {
    set j: nat {:trigger file[j]} | j < |file| && j % 2 == 0
      && file[j] as int + 256 * (if j + 1 < |file| then file[j + 1] as int else 0) == v
  }

  lemma {:induction false} OccursAtEvenPlaces(file: seq<Byte>, v: nat)
    ensures Occurs(Shorts(file), v) == |EvenPlaces(file, v)|
  {
    if file == [] {
      assert EvenPlaces(file, v) == {};
    } else {
      var n := if |file| % 2 == 1 then |file| - 1 else |file| - 2;
      var front, last := file[..n], file[n..];
      OccursAtEvenPlaces(front, v);
      assert file == front + last;
      ShortsAppend(front, last);
      OccursAppend(Shorts(front), Shorts(last), v);
      LastPlace(file, n, v);
      OnePairOccurs(last, v);
    }
  }

  lemma LastPlace(file: seq<Byte>, n: nat, v: nat)
    requires n % 2 == 0 && n < |file| <= n + 2
    ensures var pair := file[n] as int + 256 * (if n + 1 < |file| then file[n + 1] as int else 0);
      |EvenPlaces(file, v)| == |EvenPlaces(file[..n], v)| + if pair == v then 1 else 0
  {
    var all, before := EvenPlaces(file, v), EvenPlaces(file[..n], v);
    forall j: nat ensures j in before <==> j in all && j != n {
      EvenGap(j, n);
    }
    assert all == if n in all then before + {n} else before;
  }

  lemma EvenGap(j: nat, n: nat)
    requires n % 2 == 0
    ensures j % 2 == 0 && j < n ==> j + 1 < n
    ensures j % 2 == 0 && n < j ==> n + 1 < j
  {
  }

  lemma OnePairOccurs(last: seq<Byte>, v: nat)
    requires 1 <= |last| <= 2
    ensures var pair := last[0] as int + 256 * (if |last| == 2 then last[1] as int else 0);
      Occurs(Shorts(last), v) == if pair == v then 1 else 0
  {
    var pair := last[0] as int + 256 * (if |last| == 2 then last[1] as int else 0);
    assert |last| == 2 ==> last[2..] == [];
    assert Shorts(last) == [pair] && [pair][..0] == [];
  }

  lemma PairsCounted(files: seq<seq<Byte>>, v: nat)
    ensures Sum(PairCounts(files, v)) == |set p: nat, j: nat | p < |files| && j < |files[p]| && j % 2 == 0
      && files[p][j] as int + 256 * (if j + 1 < |files[p]| then files[p][j + 1] as int else 0) == v :: (p, j)|
  {
    var sets: seq<set<nat>> := seq(|files|, p requires 0 <= p < |files| => EvenPlaces(files[p], v));
    forall p | 0 <= p < |files| ensures PairCounts(files, v)[p] == |sets[p]| { OccursAtEvenPlaces(files[p], v); }
    SumOfCards(sets, PairCounts(files, v));
    assert Tagged(sets) == set p: nat, j: nat | p < |files| && j < |files[p]| && j % 2 == 0
      && files[p][j] as int + 256 * (if j + 1 < |files[p]| then files[p][j + 1] as int else 0) == v :: (p, j);
  }

  /** When the main thread has joined all threads, the counter of v is the number of pairs equal to v in all files,
      however the reads split the files and the threads interleave: of even positions at which a low byte and a high
      byte, or at an odd end zero, have that value. */
  lemma ThreadCounts(files: seq<seq<Byte>>, room: nat, s: Program, v: nat)
    requires ProgramReachable(files, room, s) && s.main == Joining(|files|) && v < 65536
    ensures |s.threads.counter| == 65536 && s.threads.counter[v] == Sum(PairCounts(files, v))
    ensures s.threads.counter[v] == |set p: nat, j: nat | p < |files| && j < |files[p]| && j % 2 == 0
      && files[p][j] as int + 256 * (if j + 1 < |files[p]| then files[p][j + 1] as int else 0) == v :: (p, j)|
  {
    PairsCounted(files, v);
    hide ProgramReachable, Reachable, ConfigOk;
    var c := Counters(AllPairs(files));
    CountersOk(files);
    ThreadsRefine(files, room);
    FinalCounts(c, Abstract(files, s), v);
    assert Totals(c, v) == PairCounts(files, v);
  }

  /** At any time each thread has counted a beginning of the pairs of its own file, and when it reports, all of them. */
  lemma ThreadReports(files: seq<seq<Byte>>, room: nat, s: Program, p: nat, v: nat)
    requires ProgramReachable(files, room, s) && p < |files| && p < |s.threads.pcs|
    requires (InReport(s.threads.pcs[p]) || s.threads.pcs[p].Finished?) && v < |s.threads.pcs[p].rep|
    ensures v < |s.threads.counter| && s.threads.pcs[p].rep[v] <= s.threads.counter[v]
    ensures |set j: nat {:trigger files[p][j]} | j < |files[p]| && j % 2 == 0
      && files[p][j] as int + 256 * (if j + 1 < |files[p]| then files[p][j + 1] as int else 0) == v|
      <= s.threads.pcs[p].rep[v]
  {
    OccursAtEvenPlaces(files[p], v);
    assert EvenPlaces(files[p], v) == set j: nat {:trigger files[p][j]} | j < |files[p]| && j % 2 == 0
      && files[p][j] as int + 256 * (if j + 1 < |files[p]| then files[p][j + 1] as int else 0) == v;
    hide ProgramReachable, Reachable, ConfigOk;
    CountersOk(files);
    ThreadsRefine(files, room);
    ReportedCount(Counters(AllPairs(files)), Abstract(files, s), p, v);
  }

  /** Nothing is printed at the same time: no two threads report at once, and none while the main thread prints. */
  lemma PrintsAlone(files: seq<seq<Byte>>, room: nat, s: Program, p: nat, u: nat)
    requires ProgramReachable(files, room, s) && p < |files| && u < |files| && p != u
    ensures |s.threads.pcs| == |files|
    ensures InReport(s.threads.pcs[p]) ==> !InReport(s.threads.pcs[u]) && !s.main.Printing?
  {
    hide ProgramReachable, Reachable, ConfigOk;
    CountersOk(files);
    ThreadsRefine(files, room);
    var c, a := Counters(AllPairs(files)), Abstract(files, s);
    ReportsDisjoint(c, a, p, u);
    ReachableInv(c);
    SumOne(OutUses(c, a.pcs), p);
  }

  ghost predicate CanGoOn(files: seq<seq<Byte>>, room: nat, s: Program) {
    exists s' :: ProgramStep(files, room, s, s')
  }

  /** read() can always return: one byte, or none at the end of the file. */
  lemma ReaderGoesOn(files: seq<seq<Byte>>, room: nat, s: Program, p: nat)
    requires room >= 2 && ProgramInv(files, s) && p < |files| && Created(s, p) && WantsRead(s, p)
    ensures CanGoOn(files, room, s)
  {
    hide Tracks, Shorts;
    assert ThreadOk(files, s, p);
    var r := s.readers[p];
    ReaderBounds(files[p], r, s.scripts[p]);
    var size := if r.offset < |files[p]| then 1 else 0;
    var scripts := s.scripts[p := s.scripts[p] + Pairs(files[p], r, size)];
    var pcs := s.threads.pcs[p := Next(Counters(scripts), p, |s.scripts[p]|)];
    var s' := Program(s.threads.(pcs := pcs), s.readers[p := AfterRead(files[p], r, size)], scripts, s.main);
    assert ReadStep(files, room, s, s', p, size);
    hide ReadStep;
    assert ProgramStep(files, room, s, s');
  }

  lemma ReaderBounds(file: seq<Byte>, r: Reader, script: seq<nat>)
    requires Tracks(file, r, script)
    ensures |r.carry| < 2 && r.offset <= |file|
  {
  }

  /** A thread that has read all it counts goes on as in the counter with all pairs known. */
  lemma CounterGoesOn(files: seq<seq<Byte>>, room: nat, s: Program, t: State, p: nat)
    requires room >= 2 && ProgramInv(files, s) && p < |files| && Created(s, p) && !s.main.Printing?
    requires ConfigOk(Counters(AllPairs(files))) && OwnStep(Counters(AllPairs(files)), Abstract(files, s), t, p)
    ensures CanGoOn(files, room, s)
  {
    if WantsRead(s, p) {
      ReaderGoesOn(files, room, s, p);
    } else {
      assert ThreadOk(files, s, p);
      ScriptsOk(files, s);
      ScriptIsPrefix(files[p], s.readers[p], s.scripts[p]);
      StepWithLess(Counters(s.scripts), Counters(AllPairs(files)), Abstract(files, s), t, s.threads, p);
      hide OwnStep;
      var threads :| OwnStep(Counters(s.scripts), s.threads, threads, p);
      assert CountStep(files, s, s.(threads := threads), p);
      hide CountStep;
      assert ProgramStep(files, room, s, s.(threads := threads));
    }
  }

  lemma ScriptsOk(files: seq<seq<Byte>>, s: Program)
    requires ProgramInv(files, s)
    ensures ConfigOk(Counters(s.scripts))
  {
    hide Tracks, Shorts;
    forall p: nat | p < |files| ensures forall k :: 0 <= k < |s.scripts[p]| ==> s.scripts[p][k] < ARRAY_SIZE {
      assert ThreadOk(files, s, p);
      ScriptIsPrefix(files[p], s.readers[p], s.scripts[p]);
      ShortsInRange(files[p]);
    }
  }

  /** Starting a thread, printing and giving the output mutex back never wait. */
  lemma MainGoesOn(files: seq<seq<Byte>>, room: nat, s: Program)
    requires ProgramShape(files, s)
    requires (s.main.Creating? && s.main.i < |files|) || s.main.Printing?
      || (s.main == Creating(|files|) && s.threads.out >= 1)
      || (s.main.Joining? && s.main.i < |files| && s.threads.pcs[s.main.i].Finished?)
    ensures CanGoOn(files, room, s)
  {
    var s' := match s.main
      case Creating(i) =>
        if i < |files| then s.(main := Creating(i + 1))
        else s.(main := Printing, threads := s.threads.(out := s.threads.out - 1))
      case Printing => s.(main := Joining(0), threads := s.threads.(out := s.threads.out + 1))
      case Joining(i) => s.(main := Joining(i + 1));
    assert MainStep(files, s, s');
    assert ProgramStep(files, room, s, s');
  }

  /** Until the main thread has joined all threads, some thread can go on: although a thread that reports takes a
      value's mutex inside the output mutex, and the main thread takes the output mutex too. */
  lemma ThreadsNoDeadlock(files: seq<seq<Byte>>, room: nat, s: Program)
    requires room >= 2 && ProgramReachable(files, room, s)
    ensures s.main == Joining(|files|) || CanGoOn(files, room, s)
  {
    hide ProgramReachable, Reachable, ConfigOk, CanGoOn, OwnStep, Tracks, Shorts;
    CountersOk(files);
    ThreadsRefine(files, room);
    var c, a := Counters(AllPairs(files)), Abstract(files, s);
    if (s.main.Creating? && s.main.i < |files|) || s.main.Printing? {
      MainGoesOn(files, room, s);
    } else {
      NoDeadlock(c, a);
      if t, p: nat :| ConfigOk(c) && Shape(c, a) && p < |a.pcs| && OwnStep(c, a, t, p) {
        CounterGoesOn(files, room, s, t, p);
      } else {
        AllFinished(files, s);
        if s.main != Joining(|files|) { MainGoesOn(files, room, s); }
      }
    }
  }

  lemma AllFinished(files: seq<seq<Byte>>, s: Program)
    requires ProgramInv(files, s) && Reachable(Counters(AllPairs(files)), Abstract(files, s)) && !s.main.Printing?
    requires forall p :: 0 <= p < |files| ==> Ended(PlaceOf(files, s, p))
    ensures s.threads.out >= 1 && forall p :: 0 <= p < |files| ==> s.threads.pcs[p].Finished?
  {
    hide Reachable, ConfigOk, Tracks, Shorts;
    var c, a := Counters(AllPairs(files)), Abstract(files, s);
    CountersOk(files);
    ReachableInv(c);
    forall p: nat | p < |files| ensures s.threads.pcs[p].Finished? {
      assert ThreadOk(files, s, p) && Ended(PlaceOf(files, s, p));
    }
    SumZero(OutUses(c, a.pcs));
  }

  // ---------------------------------------------------------------- every run ends

  function ReadsLeft(file: seq<Byte>, r: Reader): int {
    if r.eof then 0 else |file| - r.offset + 1
  }

  function AllReadsLeft(files: seq<seq<Byte>>, readers: seq<Reader>): (r: seq<int>)
    requires |readers| == |files|
    ensures |r| == |files| && forall p :: 0 <= p < |r| ==> r[p] == ReadsLeft(files[p], readers[p])
  {
    seq(|files|, p requires 0 <= p < |files| => ReadsLeft(files[p], readers[p]))
  }

  function MainLeft(n: nat, main: Main): int {
    match main
    case Creating(i) => 2 * n + 2 - i
    case Printing => n + 1
    case Joining(i) => n - i
  }

  function StepsLeft(files: seq<seq<Byte>>, s: Program): int
    requires ProgramShape(files, s)
  {
    Sum(Works(Counters(AllPairs(files)), Places(files, s))) + Sum(AllReadsLeft(files, s.readers))
    + MainLeft(|files|, s.main)
  }

  lemma ReadsOneLess(files: seq<seq<Byte>>, room: nat, s: Program, s': Program, p: nat, size: nat)
    requires ReadStep(files, room, s, s', p, size)
    ensures |s'.readers| == |files| && Sum(AllReadsLeft(files, s'.readers)) < Sum(AllReadsLeft(files, s.readers))
    ensures s'.main == s.main
  {
    hide Pairs, Chunk;
    var left := ReadsLeft(files[p], s'.readers[p]);
    SumUpdate(AllReadsLeft(files, s.readers), p, left);
    assert AllReadsLeft(files, s'.readers) == AllReadsLeft(files, s.readers)[p := left];
  }

  lemma StepLessLeft(files: seq<seq<Byte>>, room: nat, s: Program, s': Program)
    requires ProgramInv(files, s) && ProgramStep(files, room, s, s')
    requires Reachable(Counters(AllPairs(files)), Abstract(files, s))
    ensures ProgramShape(files, s') && StepsLeft(files, s') < StepsLeft(files, s)
  {
    hide OwnStep, ReadStep, Reachable, ConfigOk, Sum, ThreadOk;
    if MainStep(files, s, s') {
      MainRefines(files, s, s');
    } else if p: nat :| CountStep(files, s, s', p) {
      CountsOneLess(files, s, s', p);
    } else {
      var p: nat, size: nat :| ReadStep(files, room, s, s', p, size);
      ReadRefines(files, room, s, s');
      ReadsOneLess(files, room, s, s', p, size);
      assert Places(files, s') == Abstract(files, s').pcs == Abstract(files, s).pcs == Places(files, s);
    }
  }

  lemma CountsOneLess(files: seq<seq<Byte>>, s: Program, s': Program, p: nat)
    requires ProgramInv(files, s) && CountStep(files, s, s', p)
    requires Reachable(Counters(AllPairs(files)), Abstract(files, s))
    ensures ProgramShape(files, s') && StepsLeft(files, s') < StepsLeft(files, s)
  {
    hide OwnStep, Reachable, ConfigOk, Sum, Tracks, Shorts, Inv, Step;
    var c := Counters(AllPairs(files));
    CountersOk(files);
    ReachableInv(c);
    CountRefines(files, s, s');
    StepDecreases(c, Abstract(files, s), Abstract(files, s'));
  }

  lemma {:induction false} RunLeft(files: seq<seq<Byte>>, room: nat, run: seq<Program>)
    requires IsProgramRun(files, room, run)
    ensures forall i :: 0 <= i < |run| ==>
      && ProgramShape(files, run[i]) && ProgramShape(files, run[0])
      && i + StepsLeft(files, run[i]) <= StepsLeft(files, run[0])
    decreases |run|
  {
    hide ProgramStep, StepsLeft, Reachable;
    RunRefines(files, room, run);
    assert ProgramInv(files, run[0]);
    if |run| > 1 {
      var rest := run[..|run| - 1];
      assert ProgramStep(files, room, run[|run| - 2], run[|run| - 2 + 1]);
      assert forall k :: 0 <= k < |rest| - 1 && ProgramStep(files, room, run[k], run[k + 1]) ==>
        ProgramStep(files, room, rest[k], rest[k + 1]);
      RunLeft(files, room, rest);
      assert forall i :: 0 <= i < |rest| ==> run[i] == rest[i];
      StepLessLeft(files, room, run[|run| - 2], run[|run| - 1]);
    }
  }

  /** For each file one read a byte, and one that finds the end. */
  function Sizes(files: seq<seq<Byte>>): (r: seq<int>)
    ensures |r| == |files| && forall p :: 0 <= p < |r| ==> r[p] == |files[p]| + 1
  {
    seq(|files|, p requires 0 <= p < |files| => |files[p]| + 1)
  }

  /** Every run is bounded by the reads, the main thread's steps and the counter's steps. */
  lemma ThreadsEnd(files: seq<seq<Byte>>, room: nat, run: seq<Program>)
    requires IsProgramRun(files, room, run)
    ensures |run| - 1 <= TotalWork(Counters(AllPairs(files))) + Sum(Sizes(files)) + 2 * |files| + 2
  {
    hide ProgramStep, Reachable;
    var c, last := Counters(AllPairs(files)), run[|run| - 1];
    RunLeft(files, room, run);
    RunRefines(files, room, run);
    assert ProgramShape(files, last) && |run| - 1 + StepsLeft(files, last) <= StepsLeft(files, run[0]);
    CountersOk(files);
    InitRefines(files, run[0]);
    InitWork(c, Abstract(files, run[0]));
    assert AllReadsLeft(files, run[0].readers) == Sizes(files);
    NothingNegative(files, last);
  }

  lemma InitWork(c: Config, s: State)
    requires Init(c, s)
    ensures |s.pcs| == |c.inputs| && Sum(Works(c, s.pcs)) == TotalWork(c)
  {
    assert s.pcs == seq(|c.inputs|, p requires 0 <= p < |c.inputs| => Next(c, p, 0));
  }

  lemma NothingNegative(files: seq<seq<Byte>>, s: Program)
    requires ProgramInv(files, s) && Reachable(Counters(AllPairs(files)), Abstract(files, s))
    ensures StepsLeft(files, s) >= 0
  {
    hide Reachable, ConfigOk, Shorts, Sum;
    var c, a := Counters(AllPairs(files)), Abstract(files, s);
    CountersOk(files);
    ReachableInv(c);
    WorksLeft(c, a);
    forall p: nat | p < |files| ensures ReadsLeft(files[p], s.readers[p]) >= 0 {
      assert ThreadOk(files, s, p);
      ReaderBounds(files[p], s.readers[p], s.scripts[p]);
    }
    SumNat(AllReadsLeft(files, s.readers));
  }
}
