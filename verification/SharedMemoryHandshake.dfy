/** A parent and a worker that pass requests through shared memory (posix/ipc/shared-memory.c).

    Each side announces its turn with a flag and a SIGUSR1. SIGUSR1 is blocked except inside sigsuspend, so that a
    signal sent earlier stays pending (one bit) and ends the next sigsuspend at once. Every read and write of the
    shared memory is a step of its own, and the steps of the two processes interleave in any order. */
module SharedMemoryHandshake {

  /** The parent's place in its code; i is the number of the request. */
  datatype Parent =
    | Start                   // about to write ppid
    | Check(i: nat)           // about to read cready
    | Suspended(i: nat)       // in sigsuspend
    | ClearReady(i: nat)
    | SetX(i: nat)
    | SetCmd(i: nat)
    | SetReady(i: nat)
    | Print(i: nat)
    | Signal(i: nat)
    | QuitClear               // the same for 'Q', without waiting first
    | QuitCmd
    | QuitReady
    | QuitSignal
    | Wait                    // in wait()
    | Gone

  datatype Child =
    | FirstReady              // about to set cready for the first time
    | FirstSignal             // about to signal getppid()
    | Checking                // about to read pready
    | Sleeping                // in sigsuspend
    | ClearRequest            // about to clear pready
    | ReadCmd
    | ReadX                   // x * x reads x twice
    | ReadXAgain(x0: int)
    | WriteY(v: int, x1: int)
    | ResultReady             // about to set cready
    | SignalResult            // about to signal the ppid found in shared memory
    | Exited

  datatype State = State(
    ppid: int, pready: bool, cready: bool, x: int, y: int, cmd: char,
    parent: Parent, child: Child,
    psig: bool, csig: bool,            // SIGUSR1 pending for the parent, the child
    handled: seq<int>,                 // the values of x whose squares the worker has written
    printed: seq<(int, int)>)          // the x and y the parent has printed

  /** n requests (100 in the program); pid is the parent's process id. */
  datatype Config = Config(n: nat, pid: int)

  function Next(c: Config, i: nat): Parent { if i < c.n then Check(i) else QuitClear }

  // ---------------------------------------------------------------- steps

  /** The shared memory may hold anything from an earlier run, except in the flags. */
  ghost predicate Init(c: Config, s: State) {
    && !s.pready && !s.cready && !s.psig && !s.csig && s.handled == [] && s.printed == []
    && s.parent == Start && s.child == FirstReady
  }

  /** Only sigsuspend and wait() can hold a process up. */
  predicate ParentReady(s: State) {
    (s.parent.Suspended? ==> s.psig) && (s.parent.Wait? ==> s.child.Exited?) && !s.parent.Gone?
  }

  predicate ChildReady(s: State) {
    (s.child.Sleeping? ==> s.csig) && !s.child.Exited?
  }

  function ParentNext(c: Config, s: State): State {
    match s.parent
    case Start => s.(ppid := c.pid, parent := Next(c, 0))
    case Check(i) => s.(parent := if s.cready then ClearReady(i) else Suspended(i))
    case Suspended(i) => s.(psig := false, parent := Check(i))
    case ClearReady(i) => s.(cready := false, parent := SetX(i))
    case SetX(i) => s.(x := i, parent := SetCmd(i))
    case SetCmd(i) => s.(cmd := '*', parent := SetReady(i))
    case SetReady(i) => s.(pready := true, parent := Print(i))
    case Print(i) => s.(printed := s.printed + [(s.x, s.y)], parent := Signal(i))
    case Signal(i) => s.(csig := true, parent := Next(c, i + 1))
    case QuitClear => s.(cready := false, parent := QuitCmd)
    case QuitCmd => s.(cmd := 'Q', parent := QuitReady)
    case QuitReady => s.(pready := true, parent := QuitSignal)
    case QuitSignal => s.(csig := true, parent := Wait)
    case Wait => s.(parent := Gone)
    case Gone => s
  }

  function ChildNext(c: Config, s: State): State {
    match s.child
    case FirstReady => s.(cready := true, child := FirstSignal)
    case FirstSignal => s.(psig := true, child := Checking)
    case Checking => s.(child := if s.pready then ClearRequest else Sleeping)
    case Sleeping => s.(csig := false, child := Checking)
    case ClearRequest => s.(pready := false, child := ReadCmd)
    case ReadCmd => s.(child := if s.cmd == 'Q' then Exited else ReadX)
    case ReadX => s.(child := ReadXAgain(s.x))
    case ReadXAgain(x0) => s.(child := WriteY(x0 * s.x, s.x))
    case WriteY(v, x1) => s.(y := v, handled := s.handled + [x1], child := ResultReady)
    case ResultReady => s.(cready := true, child := SignalResult)
    case SignalResult => s.(psig := s.psig || s.ppid == c.pid, child := Checking)
    case Exited => s
  }

  ghost predicate ParentStep(c: Config, s: State, s': State) { ParentReady(s) && s' == ParentNext(c, s) }

  ghost predicate ChildStep(c: Config, s: State, s': State) { ChildReady(s) && s' == ChildNext(c, s) }

  ghost predicate Step(c: Config, s: State, s': State) {
    ParentStep(c, s, s') || ChildStep(c, s, s')
  }

  ghost predicate IsRun(c: Config, run: seq<State>) {
    |run| > 0 && Init(c, run[0]) && forall k :: 0 <= k < |run| - 1 ==> Step(c, run[k], run[k + 1])
  }

  ghost predicate Reachable(c: Config, s: State) {
    exists run :: IsRun(c, run) && run[|run| - 1] == s
  }

  ghost predicate Final(s: State) { s.parent.Gone? && s.child.Exited? }

  // ---------------------------------------------------------------- the invariant

  predicate Quitting(p: Parent) { p.QuitClear? || p.QuitCmd? || p.QuitReady? || p.QuitSignal? || p.Wait? || p.Gone? }

  predicate InLoop(p: Parent) { !p.Start? && !Quitting(p) }

  /** How many requests the parent has posted. */
  function Posted(c: Config, p: Parent): nat {
    if p.Start? then 0 else if Quitting(p) then c.n else if p.Print? || p.Signal? then p.i + 1 else p.i
  }

  /** The parent writes the next request: the turn is its own. */
  predicate Writing(p: Parent) { p.SetX? || p.SetCmd? || p.SetReady? }

  /** The parent has yet to notice that its turn has come. */
  predicate Unaware(p: Parent)
  {
    p.Start? || p.Check? || p.Suspended? || p.Print? || p.Signal? || p.QuitClear? || p.QuitCmd? || p.QuitReady?
  }

  /** The worker has seen the request and works on it. */
  predicate Busy(ch: Child) { ch.ReadCmd? || ch.ReadX? || ch.ReadXAgain? || ch.WriteY? || ch.ResultReady? }

  /** A request is posted and its data is in place; the command is still '*' unless 'Q' has overtaken it. */
  ghost predicate RequestInPlace(c: Config, s: State) {
    var p := Posted(c, s.parent);
    && p > 0 && s.x == p - 1
    && s.cmd == (if s.parent.QuitReady? || s.parent.QuitSignal? || s.parent.Wait? || s.parent.Gone? then 'Q' else '*')
  }

  ghost predicate WorkOk(c: Config, s: State)
    requires Busy(s.child)
  {
    var p := Posted(c, s.parent);
    && p > 0 && s.x == p - 1 && |s.handled| == (if s.child.ResultReady? then p else p - 1)
    && (s.child.ReadXAgain? ==> s.child.x0 == p - 1)
    && (s.child.WriteY? ==> s.child.v == (p - 1) * (p - 1) && s.child.x1 == p - 1)
    && (s.child.ReadCmd? ==> RequestInPlace(c, s))
  }

  /** Whose turn it is, until the parent has posted 'Q'. */
  ghost predicate TurnOk(c: Config, s: State) {
    var p := Posted(c, s.parent);
    match s.child
    case FirstReady => !s.pready && p == 0 && s.handled == [] && !s.cready && Unaware(s.parent)
    case Exited => !s.pready && s.parent.QuitReady? && |s.handled| + 1 == p
    case ClearRequest => s.pready && |s.handled| + 1 == p && RequestInPlace(c, s) && !s.cready && Unaware(s.parent)
    case _ =>
      if Busy(s.child) then WorkOk(c, s) && !s.pready && !s.cready && Unaware(s.parent)
      else if s.pready then |s.handled| + 1 == p && RequestInPlace(c, s) && !s.cready && Unaware(s.parent)
      else |s.handled| == p && (!Quitting(s.parent) ==> s.cready == !Writing(s.parent)) && !s.parent.Gone?
  }

  /** Once 'Q' is posted, the worker has it before it unless it is about to read it or has exited. */
  ghost predicate QuitOk(c: Config, s: State) {
    && s.cmd == 'Q' && (s.pready || s.child.ReadCmd? || s.child.Exited?)
    && (|s.handled| == c.n || |s.handled| + 1 == c.n)
    && (s.child.FirstReady? ==> c.n == 0)
    && (s.child.ClearRequest? ==> s.pready)
    && (Busy(s.child) && !s.child.ReadCmd? ==> WorkOk(c, s))
    && (s.parent.Gone? ==> s.child.Exited?)
  }

  /** No wake-up is lost: who sleeps although it is his turn has a signal pending, or one is about to be sent. */
  ghost predicate WakeOk(s: State) {
    && (s.child.Sleeping? && s.pready ==> s.csig || s.parent.Print? || s.parent.Signal? || s.parent.QuitSignal?)
    && (s.parent.Suspended? && s.cready ==> s.psig || s.child.FirstSignal? || s.child.SignalResult?)
  }

  ghost predicate HandledOk(s: State) {
    && (forall k :: 0 <= k < |s.handled| ==> s.handled[k] == k)
    && (|s.handled| > 0 ==> s.y == (|s.handled| - 1) * (|s.handled| - 1))
  }

  ghost predicate IndexOk(c: Config, p: Parent) { InLoop(p) ==> p.i < c.n }

  /** What the parent has written of the next request. */
  ghost predicate DataOk(s: State) {
    && (s.parent.SetCmd? || s.parent.SetReady? || s.parent.Print? ==> s.x == s.parent.i)
    && (s.parent.SetReady? ==> s.cmd == '*')
    && (s.parent.QuitReady? ==> s.cmd == 'Q')
  }

  ghost predicate Inv(c: Config, s: State) {
    && IndexOk(c, s.parent) && DataOk(s) && HandledOk(s) && WakeOk(s)
    && (!s.parent.Start? ==> s.ppid == c.pid)
    && (s.child.SignalResult? ==> |s.handled| > 0)
    && if s.parent.QuitSignal? || s.parent.Wait? || s.parent.Gone? then QuitOk(c, s) else TurnOk(c, s)
  }

  lemma InitInv(c: Config)
    ensures forall s :: Init(c, s) ==> Inv(c, s)
  {
  }

  lemma ParentKeepsWake(c: Config, s: State, s': State)
    requires WakeOk(s) && ParentStep(c, s, s')
    ensures WakeOk(s')
  {
  }

  /** What the parent's steps leave alone. */
  lemma ParentFrame(c: Config, s: State)
    ensures var t := ParentNext(c, s); t.child == s.child && t.y == s.y && t.handled == s.handled
    ensures !s.parent.Print? ==> ParentNext(c, s).printed == s.printed
    ensures ParentNext(c, s).ppid == if s.parent.Start? then c.pid else s.ppid
  {
    match s.parent
    case Start => case Check(_) => case Suspended(_) => case ClearReady(_) => case SetX(_) => case SetCmd(_) =>
    case SetReady(_) => case Print(_) => case Signal(_) =>
    case QuitClear => case QuitCmd => case QuitReady => case QuitSignal => case Wait => case Gone =>
  }

  lemma ParentKeepsData(c: Config, s: State, s': State)
    requires Inv(c, s) && ParentStep(c, s, s')
    ensures HandledOk(s')
    ensures (!s'.parent.Start? ==> s'.ppid == c.pid) && (s'.child.SignalResult? ==> |s'.handled| > 0)
  {
    ParentFrame(c, s);
    hide TurnOk, QuitOk, WakeOk, ParentNext;
  }

  lemma ParentKeepsRequest(c: Config, s: State, s': State)
    requires IndexOk(c, s.parent) && DataOk(s) && ParentStep(c, s, s')
    ensures IndexOk(c, s'.parent) && DataOk(s')
  {
    match s.parent
    case Start => case Check(_) => case Suspended(_) => case ClearReady(_) => case SetX(_) => case SetCmd(_) =>
    case SetReady(_) => case Print(_) => case Signal(_) =>
    case QuitClear => case QuitCmd => case QuitReady => case QuitSignal => case Wait => case Gone =>
  }

  lemma ParentKeepsTurn(c: Config, s: State, s': State)
    requires Inv(c, s) && ParentStep(c, s, s') && !Quitting(s.parent) && !Busy(s.child)
    ensures TurnOk(c, s') && !s'.parent.QuitSignal? && !s'.parent.Wait? && !s'.parent.Gone?
  {
    hide WakeOk, HandledOk, WorkOk, QuitOk;
  }

  lemma ParentKeepsWork(c: Config, s: State, s': State)
    requires Inv(c, s) && ParentStep(c, s, s') && !Quitting(s.parent) && Busy(s.child)
    ensures TurnOk(c, s') && !s'.parent.QuitSignal? && !s'.parent.Wait? && !s'.parent.Gone?
  {
    hide WakeOk, HandledOk, QuitOk;
  }

  lemma ParentQuits(c: Config, s: State, s': State)
    requires Inv(c, s) && ParentStep(c, s, s') && Quitting(s.parent)
    ensures if s'.parent.QuitSignal? || s'.parent.Wait? || s'.parent.Gone? then QuitOk(c, s') else TurnOk(c, s')
  {
    hide WakeOk, HandledOk;
    match s.parent
    case QuitClear => case QuitCmd => case QuitReady => case QuitSignal => case Wait => case _ =>
  }

  lemma ParentKeepsInv(c: Config, s: State, s': State)
    requires Inv(c, s) && ParentStep(c, s, s')
    ensures Inv(c, s')
  {
    ParentKeepsWake(c, s, s');
    ParentKeepsData(c, s, s');
    ParentKeepsRequest(c, s, s');
    if Quitting(s.parent) { ParentQuits(c, s, s'); }
    else if Busy(s.child) { ParentKeepsWork(c, s, s'); }
    else { ParentKeepsTurn(c, s, s'); }
    hide ParentStep, WakeOk, HandledOk, TurnOk, QuitOk, DataOk, IndexOk;
  }

  lemma ChildKeepsWake(c: Config, s: State, s': State)
    requires Inv(c, s) && ChildStep(c, s, s')
    ensures WakeOk(s')
  {
    hide QuitOk, HandledOk, DataOk;
  }

  /** What the worker's steps leave alone. */
  lemma ChildFrame(c: Config, s: State)
    ensures var t := ChildNext(c, s);
      t.parent == s.parent && t.x == s.x && t.cmd == s.cmd && t.ppid == s.ppid && t.printed == s.printed
  {
  }

  lemma ChildKeepsHandled(c: Config, s: State, s': State)
    requires Inv(c, s) && ChildStep(c, s, s')
    ensures HandledOk(s') && (s'.child.SignalResult? ==> |s'.handled| > 0)
  {
    hide WakeOk, DataOk;
    match s.child
    case FirstReady => case FirstSignal => case Checking => case Sleeping => case ClearRequest => case ReadCmd =>
    case ReadX => case ReadXAgain(_) => case WriteY(_, _) => case ResultReady => case SignalResult => case Exited =>
  }

  lemma ChildKeepsData(c: Config, s: State, s': State)
    requires Inv(c, s) && ChildStep(c, s, s')
    ensures IndexOk(c, s'.parent) && DataOk(s') && (!s'.parent.Start? ==> s'.ppid == c.pid)
  {
    ChildFrame(c, s);
    hide WakeOk, HandledOk, TurnOk, QuitOk, ChildNext;
  }

  lemma ChildKeepsTurn(c: Config, s: State, s': State)
    requires Inv(c, s) && ChildStep(c, s, s') && !s.parent.QuitSignal? && !s.parent.Wait? && !s.parent.Gone?
    ensures TurnOk(c, s')
  {
    hide WakeOk, HandledOk;
    match s.child
    case FirstReady => case FirstSignal => case Checking => case Sleeping => case ClearRequest => case ReadCmd =>
    case ReadX => case ReadXAgain(_) => case WriteY(_, _) => case ResultReady => case SignalResult => case Exited =>
  }

  lemma ChildQuits(c: Config, s: State, s': State)
    requires Inv(c, s) && ChildStep(c, s, s') && (s.parent.QuitSignal? || s.parent.Wait? || s.parent.Gone?)
    ensures QuitOk(c, s')
  {
    hide WakeOk, HandledOk;
  }

  lemma ChildKeepsInv(c: Config, s: State, s': State)
    requires Inv(c, s) && ChildStep(c, s, s')
    ensures Inv(c, s')
  {
    ChildFrame(c, s);
    ChildKeepsWake(c, s, s');
    ChildKeepsData(c, s, s');
    ChildKeepsHandled(c, s, s');
    if s.parent.QuitSignal? || s.parent.Wait? || s.parent.Gone? {
      ChildQuits(c, s, s');
    } else {
      ChildKeepsTurn(c, s, s');
    }
    hide WakeOk, HandledOk, TurnOk, QuitOk, DataOk, IndexOk, ChildNext;
  }

  lemma StepKeepsInv(c: Config, s: State, s': State)
    requires Inv(c, s) && Step(c, s, s')
    ensures Inv(c, s')
  {
    hide Inv, ParentStep, ChildStep;
    if ParentStep(c, s, s') { ParentKeepsInv(c, s, s'); } else { ChildKeepsInv(c, s, s'); }
  }

  lemma {:induction false} RunInv(c: Config, run: seq<State>)
    requires IsRun(c, run)
    ensures forall i :: 0 <= i < |run| ==> Inv(c, run[i])
    decreases |run|
  {
    hide Inv, Init, Step;
    if |run| == 1 {
      InitInv(c);
    } else {
      var rest := run[..|run| - 1];
      assert Step(c, run[|run| - 2], run[|run| - 2 + 1]);
      assert forall k :: 0 <= k < |rest| - 1 ==> Step(c, run[k], run[k + 1]) ==> Step(c, rest[k], rest[k + 1]);
      RunInv(c, rest);
      assert forall i :: 0 <= i < |rest| ==> run[i] == rest[i];
      StepKeepsInv(c, run[|run| - 2], run[|run| - 1]);
    }
  }

  /** The invariant holds in every state of every run. */
  lemma ReachableInv(c: Config)
    ensures forall s :: Reachable(c, s) ==> Inv(c, s)
  {
    hide Inv, Init, Step;
    forall s | Reachable(c, s) ensures Inv(c, s) {
      var run :| IsRun(c, run) && run[|run| - 1] == s;
      RunInv(c, run);
    }
  }

  // ---------------------------------------------------------------- what every reachable state satisfies

  /** Whoever sleeps while its flag is set has a signal pending, or the other side is just about to send it. */
  lemma NoLostWakeup(c: Config, s: State)
    requires Reachable(c, s)
    ensures s.child.Sleeping? && s.pready ==> s.csig || s.parent.Print? || s.parent.Signal? || s.parent.QuitSignal?
    ensures s.parent.Suspended? && s.cready ==> s.psig || s.child.FirstSignal? || s.child.SignalResult?
  {
    ReachableInv(c);
  }

  /** Until both processes have exited, one of them can step. */
  lemma NoStuck(c: Config, s: State)
    requires Reachable(c, s)
    ensures Final(s) || ParentReady(s) || ChildReady(s)
  {
    hide Reachable;
    ReachableInv(c);
  }

  /** The worker handles the requests in order, each at most once, and leaves behind the square of the last. */
  lemma HandlesInOrder(c: Config, s: State)
    requires Reachable(c, s)
    ensures |s.handled| <= c.n && forall k :: 0 <= k < |s.handled| ==> s.handled[k] == k
    ensures |s.handled| > 0 ==> s.y == (|s.handled| - 1) * (|s.handled| - 1)
  {
    hide Reachable;
    ReachableInv(c);
  }

  /** At the end, all requests before the last are handled; only the last may have been overtaken by 'Q'. */
  lemma HandlesAllBeforeLast(c: Config, s: State)
    requires Reachable(c, s) && Final(s)
    ensures |s.handled| == c.n || |s.handled| + 1 == c.n
  {
    hide Reachable;
    ReachableInv(c);
  }

  /** When the parent starts request i, all earlier ones are handled and y is the square of the one before. */
  lemma ResultBeforeNext(c: Config, s: State)
    requires Reachable(c, s) && (s.parent.ClearReady? || Writing(s.parent))
    ensures |s.handled| == s.parent.i && (s.parent.i > 0 ==> s.y == (s.parent.i - 1) * (s.parent.i - 1))
  {
    hide Reachable;
    ReachableInv(c);
  }

  /** Whenever the worker signals the ppid it finds in shared memory, the parent has written it. */
  lemma SignalsTheParent(c: Config, s: State)
    requires Reachable(c, s) && s.child.SignalResult?
    ensures s.ppid == c.pid
  {
    hide Reachable;
    ReachableInv(c);
  }

  // ---------------------------------------------------------------- what the parent prints

  function Printed(c: Config, p: Parent): nat { if p.Print? then p.i else Posted(c, p) }

  /** Line k shows x = k, and as y either the square of k or still that of k - 1: the parent prints without waiting. */
  ghost predicate PrintedOk(c: Config, s: State) {
    && (forall k :: 0 <= k < |s.printed| ==> s.printed[k].0 == k)
    && (forall k :: 1 <= k < |s.printed| ==> s.printed[k].1 == k * k || s.printed[k].1 == (k - 1) * (k - 1))
    && |s.printed| == Printed(c, s.parent)
  }

  lemma StepKeepsPrinted(c: Config, s: State, s': State)
    requires Inv(c, s) && PrintedOk(c, s) && Step(c, s, s')
    ensures PrintedOk(c, s')
  {
    ParentFrame(c, s);
    ChildFrame(c, s);
    if ParentStep(c, s, s') {
      PrintedCount(c, s);
      if s.parent.Print? { PrintsRecentSquare(c, s); }
    }
    hide Inv, Printed, ChildNext, ParentReady, ChildReady;
    if !s.parent.Print? { hide ParentNext; }
  }

  lemma PrintedCount(c: Config, s: State)
    requires IndexOk(c, s.parent)
    ensures Printed(c, ParentNext(c, s).parent) == Printed(c, s.parent) + (if s.parent.Print? then 1 else 0)
  {
    hide Printed;
    if InLoop(s.parent) { LoopCount(c, s); } else { OutsideCount(c, s); }
  }

  lemma LoopCount(c: Config, s: State)
    requires InLoop(s.parent) && s.parent.i < c.n
    ensures Printed(c, ParentNext(c, s).parent) == Printed(c, s.parent) + (if s.parent.Print? then 1 else 0)
  {
  }

  lemma OutsideCount(c: Config, s: State)
    requires !InLoop(s.parent)
    ensures Printed(c, ParentNext(c, s).parent) == Printed(c, s.parent)
  {
  }

  lemma PrintsRecentSquare(c: Config, s: State)
    requires Inv(c, s) && s.parent.Print?
    ensures s.x == s.parent.i
    ensures s.parent.i > 0 ==> s.y == s.parent.i * s.parent.i || s.y == (s.parent.i - 1) * (s.parent.i - 1)
  {
  }

  lemma {:induction false} RunPrinted(c: Config, run: seq<State>)
    requires IsRun(c, run)
    ensures PrintedOk(c, run[|run| - 1])
    decreases |run|
  {
    hide Inv, Step;
    if |run| > 1 {
      var rest := run[..|run| - 1];
      assert Step(c, run[|run| - 2], run[|run| - 2 + 1]);
      assert forall k :: 0 <= k < |rest| - 1 ==> Step(c, run[k], run[k + 1]) ==> Step(c, rest[k], rest[k + 1]);
      RunPrinted(c, rest);
      RunInv(c, rest);
      StepKeepsPrinted(c, run[|run| - 2], run[|run| - 1]);
    }
  }

  /** The parent prints every request once, in order, with the square of this request or of the one before. */
  lemma PrintsInOrder(c: Config, s: State)
    requires Reachable(c, s)
    ensures forall k :: 0 <= k < |s.printed| ==> s.printed[k].0 == k
    ensures forall k :: 1 <= k < |s.printed| ==> s.printed[k].1 == k * k || s.printed[k].1 == (k - 1) * (k - 1)
    ensures Final(s) ==> |s.printed| == c.n
  {
    hide Init, Step;
    var run :| IsRun(c, run) && run[|run| - 1] == s;
    RunPrinted(c, run);
  }

  // ---------------------------------------------------------------- every run ends

  /** What is left of the parent's current round, or of its shutdown. */
  function RoundWork(p: Parent): int {
    match p
    case Start => 18
    case Check(i) => 17
    case Suspended(i) => 16
    case ClearReady(i) => 16
    case SetX(i) => 15
    case SetCmd(i) => 14
    case SetReady(i) => 13
    case Print(i) => 2
    case Signal(i) => 1
    case QuitClear => 17
    case QuitCmd => 16
    case QuitReady => 15
    case QuitSignal => 4
    case Wait => 1
    case Gone => 0
  }

  function ParentWork(c: Config, p: Parent): int {
    RoundWork(p) + 19 * (if p.Start? then c.n else if InLoop(p) then c.n - p.i else 0)
  }

  function ChildWork(ch: Child): int {
    match ch
    case FirstReady => 6
    case FirstSignal => 5
    case Checking => 2
    case Sleeping => 1
    case ClearRequest => 1
    case ReadCmd => 10
    case ReadX => 9
    case ReadXAgain(x0) => 8
    case WriteY(v, x1) => 7
    case ResultReady => 6
    case SignalResult => 5
    case Exited => 0
  }

  /** A bound on the steps left: posting a request pays for the worker's round, sending a signal for one wake-up. */
  function Work(c: Config, s: State): int {
    ParentWork(c, s.parent) + ChildWork(s.child)
    + (if s.pready then 10 else 0) + (if s.psig then 2 else 0) + (if s.csig then 2 else 0)
  }

  lemma StepDecreases(c: Config, s: State, s': State)
    requires Inv(c, s) && Step(c, s, s')
    ensures Work(c, s') < Work(c, s)
  {
    hide WakeOk, HandledOk, DataOk;
    if ParentStep(c, s, s') { ParentDecreases(c, s, s'); } else { ChildDecreases(c, s, s'); }
  }

  lemma ParentDecreases(c: Config, s: State, s': State)
    requires IndexOk(c, s.parent) && ParentStep(c, s, s')
    ensures Work(c, s') < Work(c, s)
  {
    if InLoop(s.parent) { LoopDecreases(c, s, s'); } else { OutsideDecreases(c, s, s'); }
    hide *;
  }

  lemma LoopDecreases(c: Config, s: State, s': State)
    requires InLoop(s.parent) && s.parent.i < c.n && ParentStep(c, s, s')
    ensures Work(c, s') < Work(c, s)
  {
  }

  lemma OutsideDecreases(c: Config, s: State, s': State)
    requires !InLoop(s.parent) && ParentStep(c, s, s')
    ensures Work(c, s') < Work(c, s)
  {
  }

  /** A worker that has seen pready finds it still set. */
  lemma ChildDecreases(c: Config, s: State, s': State)
    requires (s.child.ClearRequest? ==> s.pready) && ChildStep(c, s, s')
    ensures Work(c, s') < Work(c, s)
  {
  }

  lemma {:induction false} RunWork(c: Config, run: seq<State>)
    requires IsRun(c, run)
    ensures |run| - 1 + Work(c, run[|run| - 1]) <= 19 * c.n + 24
    decreases |run|
  {
    hide Inv, Step;
    if |run| > 1 {
      hide Init, Work;
      var rest := run[..|run| - 1];
      assert Step(c, run[|run| - 2], run[|run| - 2 + 1]);
      assert forall k :: 0 <= k < |rest| - 1 ==> Step(c, run[k], run[k + 1]) ==> Step(c, rest[k], rest[k + 1]);
      RunWork(c, rest);
      RunInv(c, rest);
      StepDecreases(c, run[|run| - 2], run[|run| - 1]);
    }
  }

  /** In every interleaving the processes stop after a bounded number of steps; by NoStuck they can only stop by
      exiting. */
  lemma RunEnds(c: Config, run: seq<State>)
    requires IsRun(c, run)
    ensures |run| - 1 <= 19 * c.n + 24
  {
    RunWork(c, run);
    RunInv(c, run);
  }

  // ---------------------------------------------------------------- 'Q' may overtake the last request

  lemma ParentRuns(c: Config, s: State) returns (t: State)
    requires Reachable(c, s) && ParentReady(s)
    ensures t == ParentNext(c, s) && Reachable(c, t)
  {
    t := ParentNext(c, s);
    Extend(c, s, t);
  }

  lemma ChildRuns(c: Config, s: State) returns (t: State)
    requires Reachable(c, s) && ChildReady(s)
    ensures t == ChildNext(c, s) && Reachable(c, t)
  {
    t := ChildNext(c, s);
    Extend(c, s, t);
  }

  lemma Extend(c: Config, s: State, s': State)
    requires Reachable(c, s) && Step(c, s, s')
    ensures Reachable(c, s')
  {
    hide Init, Step;
    var run :| IsRun(c, run) && run[|run| - 1] == s;
    var longer := run + [s'];
    forall k | 0 <= k < |longer| - 1 ensures Step(c, longer[k], longer[k + 1]) {
      assert k < |run| - 1 ==> Step(c, run[k], run[k + 1]);
    }
    assert IsRun(c, longer);
  }

  /** i requests are handled and it is the parent's turn. */
  ghost predicate Synced(c: Config, s: State, i: nat) {
    Reachable(c, s) && s.parent == Next(c, i) && s.child == Checking && s.cready && !s.pready && |s.handled| == i
  }

  lemma FirstSync(c: Config)
    ensures exists s :: Synced(c, s, 0)
  {
    hide Reachable;
    var s0 := State(0, false, false, 0, 0, ' ', Start, FirstReady, false, false, [], []);
    assert Reachable(c, s0) by { InitReachable(c, s0); }
    var s1 := ParentRuns(c, s0);
    var s2 := ChildRuns(c, s1);
    var s3 := ChildRuns(c, s2);
    assert Synced(c, s3, 0);
  }

  lemma InitReachable(c: Config, s: State)
    requires Init(c, s)
    ensures Reachable(c, s)
  {
    assert IsRun(c, [s]);
  }

  /** i requests are posted, and the worker has yet to look at the last one. */
  ghost predicate PostedAt(c: Config, s: State, i: nat) {
    && Reachable(c, s) && s.parent == Next(c, i) && s.child == Checking && s.pready && !s.cready && s.cmd == '*'
    && |s.handled| + 1 == i
  }

  /** The parent posts a request and does not wait for the worker. */
  lemma Post(c: Config, s: State, i: nat)
    requires 0 < i <= c.n && Synced(c, s, i - 1)
    ensures exists t :: PostedAt(c, t, i)
  {
    hide Reachable;
    var t := ParentRuns(c, s);
    t := ParentRuns(c, t);
    t := ParentRuns(c, t);
    t := ParentRuns(c, t);
    t := ParentRuns(c, t);
    t := ParentRuns(c, t);
    t := ParentRuns(c, t);
    assert PostedAt(c, t, i);
  }

  /** The worker serves it. */
  lemma Serve(c: Config, s: State, i: nat)
    requires PostedAt(c, s, i)
    ensures exists t :: Synced(c, t, i)
  {
    hide Reachable;
    var t := ChildRuns(c, s);
    t := ChildRuns(c, t);
    t := ChildRuns(c, t);
    t := ChildRuns(c, t);
    t := ChildRuns(c, t);
    t := ChildRuns(c, t);
    t := ChildRuns(c, t);
    t := ChildRuns(c, t);
    assert Synced(c, t, i);
  }

  lemma {:induction false} SyncAt(c: Config, i: nat)
    requires i <= c.n
    ensures exists s :: Synced(c, s, i)
  {
    hide Synced, PostedAt;
    if i == 0 {
      FirstSync(c);
    } else {
      SyncAt(c, i - 1);
      var before :| Synced(c, before, i - 1);
      Post(c, before, i);
      var posted :| PostedAt(c, posted, i);
      Serve(c, posted, i);
    }
  }

  /** From the end of the parent's loop, both processes exit before the worker looks again. */
  lemma Shutdown(c: Config, s: State)
    requires Reachable(c, s) && s.parent == QuitClear && s.child == Checking
    ensures exists t :: Reachable(c, t) && Final(t) && t.handled == s.handled
  {
    hide Reachable;
    var t := ParentRuns(c, s);
    t := ParentRuns(c, t);
    t := ParentRuns(c, t);
    t := ParentRuns(c, t);
    t := ChildRuns(c, t);
    t := ChildRuns(c, t);
    t := ChildRuns(c, t);
    t := ParentRuns(c, t);
    assert Reachable(c, t) && Final(t);
  }

  /** Whether the last request is handled depends on the interleaving: for every n there is a run that handles all
      requests and, unless there are none, one that skips the last. */
  lemma QuitMayOvertake(c: Config)
    ensures exists s :: Reachable(c, s) && Final(s) && |s.handled| == c.n
    ensures c.n > 0 ==> exists s :: Reachable(c, s) && Final(s) && |s.handled| == c.n - 1
  {
    hide Reachable, Final;
    SyncAt(c, c.n);
    var s :| Synced(c, s, c.n);
    Shutdown(c, s);
    if c.n > 0 {
      SyncAt(c, c.n - 1);
      var before :| Synced(c, before, c.n - 1);
      Post(c, before, c.n);
      var posted :| PostedAt(c, posted, c.n);
      Shutdown(c, posted);
    }
  }

  /** So all requests are sure to be handled exactly when there are none. */
  lemma AllHandledIff(c: Config)
    ensures (forall s :: Reachable(c, s) && Final(s) ==> |s.handled| == c.n) <==> c.n == 0
  {
    hide Reachable;
    if c.n > 0 {
      QuitMayOvertake(c);
    } else {
      forall s | Reachable(c, s) && Final(s) ensures |s.handled| == c.n { HandlesInOrder(c, s); }
    }
  }
}
