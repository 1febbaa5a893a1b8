/** The runs of the worker and its clients (posix/ipc/semaphore.c): how long they are, and when they can be stuck. */
module SemaphoreProgress {
  import opened FiniteSets
  import opened Numbers
  import opened SemaphoreWorker

  lemma Extend(c: Config, s: State, s': State)
    requires Reachable(c, s) && Step(c, s, s')
    ensures Reachable(c, s')
  {
    hide Step, Init;
    var run :| IsRun(c, run) && run[|run| - 1] == s;
    var longer := run + [s'];
    forall k | 0 <= k < |longer| - 1 ensures Step(c, longer[k], longer[k + 1]) {
      assert k < |run| - 1 ==> Step(c, run[k], run[k + 1]);
    }
    assert IsRun(c, longer);
  }

  // ---------------------------------------------------------------- every run has the same length

  /** How many steps of its own, and of the worker on its behalf, client pc still causes. */
  function ClientWork(c: Config, pc: Client): int {
    match pc
    case Idle(j) => 6 * (c.r - j)
    case Holding(j) => 6 * (c.r - j) - 1
    case Sent(j) => 6 * (c.r - j) - 4
    case Got(j) => 6 * (c.r - j) - 5
    case Exited => 0
  }

  function ClientsWork(c: Config, clients: seq<Client>): int {
    if clients == [] then 0 else ClientsWork(c, clients[..|clients| - 1]) + ClientWork(c, clients[|clients| - 1])
  }

  function MsgWork(m: Msg): int {
    if m.mtype != WORKER_TYPE then 0 else if m.ctrl == 'Q' then 1 else 2
  }

  function QueueWork(queue: seq<Msg>): int {
    if queue == [] then 0 else QueueWork(queue[..|queue| - 1]) + MsgWork(queue[|queue| - 1])
  }

  function WorkerWork(w: Worker): int { if w.Sending? then 1 else 0 }

  function ParentWork(c: Config, p: Parent): int { if p.Reaping? then c.n - |p.reaped| + 2 else 0 }

  function Work(c: Config, s: State): int {
    ClientsWork(c, s.clients) + QueueWork(s.queue) + WorkerWork(s.worker) + ParentWork(c, s.parent)
  }

  lemma {:induction false} ClientsWorkUpdate(c: Config, clients: seq<Client>, i: nat, pc: Client)
    requires i < |clients|
    ensures ClientsWork(c, clients[i := pc]) == ClientsWork(c, clients) - ClientWork(c, clients[i]) + ClientWork(c, pc)
  {
    var after := clients[i := pc];
    if i == |clients| - 1 {
      assert after[..i] == clients[..i];
    } else {
      ClientsWorkUpdate(c, clients[..|clients| - 1], i, pc);
      assert after[..|clients| - 1] == clients[..|clients| - 1][i := pc];
    }
  }

  lemma QueueWorkAppend(queue: seq<Msg>, m: Msg)
    ensures QueueWork(queue + [m]) == QueueWork(queue) + MsgWork(m)
  {
    assert (queue + [m])[..|queue|] == queue;
  }

  lemma {:induction false} QueueWorkWithout(queue: seq<Msg>, k: nat)
    requires k < |queue|
    ensures QueueWork(Without(queue, k)) == QueueWork(queue) - MsgWork(queue[k])
  {
    if k == |queue| - 1 {
      assert Without(queue, k) == queue[..k];
    } else {
      var last := queue[|queue| - 1];
      QueueWorkWithout(queue[..|queue| - 1], k);
      QueueWorkAppend(Without(queue[..|queue| - 1], k), last);
      assert Without(queue, k) == Without(queue[..|queue| - 1], k) + [last];
    }
  }

  /** Every step does exactly one unit of work. */
  lemma StepWork(c: Config, s: State, s': State)
    requires Inv(c, s) && Step(c, s, s')
    ensures Work(c, s') == Work(c, s) - 1
  {
    hide Inv, Acquire, Send, Release, Receive, Take, SendReply, Reap, SendQuit, Work;
    if i :| ClientStep(c, s, s', i) {
      ClientStepWork(c, s, s', i);
    } else if WorkerStep(c, s, s') {
      WorkerStepWork(c, s, s');
    } else {
      ParentStepWork(c, s, s');
    }
  }

  lemma ClientStepWork(c: Config, s: State, s': State, i: nat)
    requires Inv(c, s) && ClientStep(c, s, s', i)
    ensures Work(c, s') == Work(c, s) - 1
  {
    hide ClientsWork, QueueWork;
    assert ClientOk(c, s, i);
    ClientsWorkUpdate(c, s.clients, i, s'.clients[i]);
    assert s'.clients == s.clients[i := s'.clients[i]];
    if Send(c, s, s', i) {
      QueueWorkAppend(s.queue, Request(i, s.clients[i].j));
    } else if k: nat :| Receive(c, s, s', i, k) {
      QueueWorkWithout(s.queue, k);
    }
  }

  lemma WorkerStepWork(c: Config, s: State, s': State)
    requires Inv(c, s) && WorkerStep(c, s, s')
    ensures Work(c, s') == Work(c, s) - 1
  {
    hide ClientsWork, QueueWork;
    if k :| Take(c, s, s', k) {
      QueueWorkWithout(s.queue, k);
    } else {
      QueueWorkAppend(s.queue, s.worker.msg);
      assert Current(s, s.worker.msg);
    }
  }

  lemma ParentStepWork(c: Config, s: State, s': State)
    requires Inv(c, s) && ParentStep(c, s, s')
    ensures Work(c, s') == Work(c, s) - 1
  {
    hide ClientsWork, QueueWork;
    if m :| SendQuit(c, s, s', m) {
      QueueWorkAppend(s.queue, m);
    }
  }

  lemma {:induction false} InitWork(c: Config, clients: seq<Client>)
    requires forall i :: 0 <= i < |clients| ==> clients[i] == Next(c, 0)
    ensures ClientsWork(c, clients) == 6 * |clients| * c.r
  {
    if clients != [] { InitWork(c, clients[..|clients| - 1]); }
  }

  lemma {:induction false} ExitedWork(c: Config, clients: seq<Client>)
    requires forall i :: 0 <= i < |clients| ==> clients[i].Exited?
    ensures ClientsWork(c, clients) == 0
  {
    if clients != [] { ExitedWork(c, clients[..|clients| - 1]); }
  }

  lemma InitialWork(c: Config, s: State)
    requires Init(c, s)
    ensures Work(c, s) == 6 * c.n * c.r + c.n + 2
  {
    InitWork(c, s.clients);
  }

  /** The work still to do is the number of steps left, whatever the interleaving. */
  lemma {:induction false} RunWork(c: Config, run: seq<State>)
    requires IsRun(c, run) && c.n < WORKER_TYPE
    ensures |run| - 1 + Work(c, run[|run| - 1]) == 6 * c.n * c.r + c.n + 2
    decreases |run|
  {
    hide Inv, Init, Step, Work;
    if |run| == 1 {
      InitialWork(c, run[0]);
    } else {
      var rest := run[..|run| - 1];
      assert Step(c, run[|run| - 2], run[|run| - 2 + 1]);
      assert forall k :: 0 <= k < |rest| - 1 ==> Step(c, run[k], run[k + 1]) ==> Step(c, rest[k], rest[k + 1]);
      RunWork(c, rest);
      RunInv(c, rest);
      StepWork(c, run[|run| - 2], run[|run| - 1]);
    }
  }

  /** Every run in which all processes exit has the same number of steps. */
  lemma RunLength(c: Config, run: seq<State>)
    requires IsRun(c, run) && c.n < WORKER_TYPE && Final(run[|run| - 1])
    ensures |run| - 1 == 6 * c.n * c.r + c.n + 2
  {
    RunWork(c, run);
    RunInv(c, run);
    ExitedWork(c, run[|run| - 1].clients);
  }

  lemma {:induction false} ClientsWorkNat(c: Config, clients: seq<Client>)
    requires forall i :: 0 <= i < |clients| ==> ClientWork(c, clients[i]) >= 0
    ensures ClientsWork(c, clients) >= 0
  {
    if clients != [] { ClientsWorkNat(c, clients[..|clients| - 1]); }
  }

  lemma {:induction false} QueueWorkNat(queue: seq<Msg>)
    ensures QueueWork(queue) >= 0
  {
    if queue != [] { QueueWorkNat(queue[..|queue| - 1]); }
  }

  lemma WorkNat(c: Config, s: State)
    requires Inv(c, s)
    ensures Work(c, s) >= 0
  {
    forall i: nat | i < c.n ensures ClientWork(c, s.clients[i]) >= 0 { assert ClientOk(c, s, i); }
    ClientsWorkNat(c, s.clients);
    QueueWorkNat(s.queue);
  }

  // ---------------------------------------------------------------- deadlock

  /** The queue has room for what the semaphore lets into it. */
  predicate Roomy(c: Config) {
    c.cap >= 1 && (c.n > 0 && c.r > 0 ==> c.limit >= 1 && c.cap >= Min(c.limit, c.n))
  }

  ghost predicate CanStep(c: Config, s: State) {
    exists s' :: Step(c, s, s')
  }

  lemma CanAcquire(c: Config, s: State, i: nat)
    requires i < |s.clients| == |s.received| && s.clients[i].Idle? && s.sem >= 1
    ensures CanStep(c, s)
  {
    var s' := s.(sem := s.sem - 1, clients := s.clients[i := Holding(s.clients[i].j)]);
    assert ClientStep(c, s, s', i);
    assert Step(c, s, s');
  }

  lemma CanSend(c: Config, s: State, i: nat)
    requires i < |s.clients| == |s.received| && s.clients[i].Holding? && |s.queue| < c.cap
    ensures CanStep(c, s)
  {
    var j := s.clients[i].j;
    var s' := s.(queue := s.queue + [Request(i, j)], clients := s.clients[i := Sent(j)]);
    assert ClientStep(c, s, s', i);
    assert Step(c, s, s');
  }

  lemma CanReceive(c: Config, s: State, i: nat, k: nat)
    requires i < |s.clients| == |s.received| && s.clients[i].Sent? && FirstOf(s.queue, i + 1, k)
    ensures CanStep(c, s)
  {
    var s' := s.(queue := Without(s.queue, k), clients := s.clients[i := Got(s.clients[i].j)],
                 received := s.received[i := s.received[i] + [s.queue[k]]]);
    assert Receive(c, s, s', i, k);
    assert ClientStep(c, s, s', i);
    assert Step(c, s, s');
  }

  lemma CanRelease(c: Config, s: State, i: nat)
    requires i < |s.clients| == |s.received| && s.clients[i].Got?
    ensures CanStep(c, s)
  {
    var s' := s.(sem := s.sem + 1, clients := s.clients[i := Next(c, s.clients[i].j + 1)]);
    assert ClientStep(c, s, s', i);
    assert Step(c, s, s');
  }

  lemma CanTake(c: Config, s: State, k: nat)
    requires s.worker.Receiving? && FirstOf(s.queue, WORKER_TYPE, k)
    ensures CanStep(c, s)
  {
    var s' := s.(queue := Without(s.queue, k),
                 worker := if s.queue[k].ctrl == 'Q' then Terminated else Sending(Answer(s.queue[k])));
    assert Take(c, s, s', k);
    assert WorkerStep(c, s, s');
    assert Step(c, s, s');
  }

  lemma CanSendReply(c: Config, s: State)
    requires s.worker.Sending? && |s.queue| < c.cap
    ensures CanStep(c, s)
  {
    var s' := s.(queue := s.queue + [s.worker.msg], worker := Receiving);
    assert WorkerStep(c, s, s');
    assert Step(c, s, s');
  }

  lemma CanReap(c: Config, s: State, child: nat)
    requires s.parent.Reaping? && |s.parent.reaped| < c.n && child !in s.parent.reaped && HasExited(s, child)
    ensures CanStep(c, s)
  {
    var s' := s.(parent := Reaping(s.parent.reaped + {child}));
    assert Reap(c, s, s', child);
    assert ParentStep(c, s, s');
    assert Step(c, s, s');
  }

  lemma CanSendQuit(c: Config, s: State)
    requires s.parent.Reaping? && |s.parent.reaped| == c.n && |s.queue| < c.cap
    ensures CanStep(c, s)
  {
    var m := Msg(WORKER_TYPE, 'Q', 0, 0);
    var s' := s.(queue := s.queue + [m], parent := Gone);
    assert SendQuit(c, s, s', m);
    assert ParentStep(c, s, s');
    assert Step(c, s, s');
  }

  /** Once everyone has exited, the parent shuts the worker down. */
  lemma ShutdownProgress(c: Config, s: State)
    requires Inv(c, s) && AllExited(s) && c.cap >= 1
    ensures Final(s) || CanStep(c, s)
  {
    hide Step, CanStep;
    if s.parent.Gone? {
      if s.worker.Receiving? { CanTake(c, s, 0); }
    } else if |s.parent.reaped| == c.n {
      NothingInFlight(s);
      CanSendQuit(c, s);
    } else {
      UnreapedClient(c, s);
    }
  }

  lemma UnreapedClient(c: Config, s: State)
    requires Inv(c, s) && AllExited(s) && s.parent.Reaping? && |s.parent.reaped| < c.n
    ensures CanStep(c, s)
  {
    hide Step, CanStep;
    var below := SlotsBelow(c.n + 1);
    var clients := below - {0};
    if clients <= s.parent.reaped { SubsetCard(clients, s.parent.reaped); }
    var child :| child in clients && child !in s.parent.reaped;
    CanReap(c, s, child);
  }

  /** While a message is in flight, the worker or the addressee can take it. */
  lemma FlightProgress(c: Config, s: State)
    requires Inv(c, s) && Roomy(c) && s.parent.Reaping? && (s.queue != [] || s.worker.Sending?)
    ensures CanStep(c, s)
  {
    hide Step, CanStep, Without;
    FlightBound(c, s);
    if s.worker.Sending? {
      assert Current(s, s.worker.msg) && ClientOk(c, s, Owner(s.worker.msg) - 1);
      CanSendReply(c, s);
    } else {
      assert s.queue[0] in s.queue && Current(s, s.queue[0]);
      if s.queue[0].mtype == WORKER_TYPE {
        CanTake(c, s, 0);
      } else {
        CanReceive(c, s, s.queue[0].mtype - 1, 0);
      }
    }
  }

  /** With a roomy queue, some process can always step until all have exited. */
  lemma Progress(c: Config, s: State)
    requires Inv(c, s) && Roomy(c)
    ensures Final(s) || CanStep(c, s)
  {
    hide Step, CanStep;
    if AllExited(s) {
      ShutdownProgress(c, s);
    } else if s.queue != [] || s.worker.Sending? {
      FlightProgress(c, s);
    } else {
      ClientProgress(c, s);
    }
  }

  lemma ClientProgress(c: Config, s: State)
    requires Inv(c, s) && Roomy(c) && !AllExited(s) && s.queue == [] && !s.worker.Sending?
    ensures CanStep(c, s)
  {
    hide Step, CanStep;
    if i: nat :| i < c.n && Holds(s, i) {
      assert s.clients[i].Sent? ==> InQueue(s, i) || AtWorker(s, i);
      if s.clients[i].Holding? {
        CanSend(c, s, i);
      } else {
        CanRelease(c, s, i);
      }
    } else {
      assert Holders(s) == {};
      var i: nat :| i < |s.clients| && !s.clients[i].Exited?;
      assert ClientOk(c, s, i) && !Holds(s, i);
      CanAcquire(c, s, i);
    }
  }

  /** States from which the processes can never all exit. */
  ghost predicate Jammed(c: Config, s: State) {
    || (c.cap == 0 && s.queue == [] && !s.worker.Terminated?)
    || (c.limit == 0 && c.n > 0 && |s.clients| == c.n && s.clients[0].Idle?)
    || (s.worker.Sending? && |s.queue| >= c.cap && s.parent.Reaping?
      && forall m :: m in s.queue ==> m.mtype == WORKER_TYPE)
  }

  lemma JamKept(c: Config, s: State, s': State)
    requires Inv(c, s) && Jammed(c, s) && Step(c, s, s')
    ensures Jammed(c, s')
  {
    hide Inv;
    if c.cap == 0 && s.queue == [] && !s.worker.Terminated? {
      NoRoomKept(c, s, s');
    } else if c.limit == 0 && c.n > 0 && |s.clients| == c.n && s.clients[0].Idle? {
      NoLimitKept(c, s, s');
    } else {
      FullKept(c, s, s');
    }
  }

  lemma NoRoomKept(c: Config, s: State, s': State)
    requires c.cap == 0 && s.queue == [] && !s.worker.Terminated? && Step(c, s, s')
    ensures s'.queue == [] && !s'.worker.Terminated?
  {
  }

  lemma NoLimitKept(c: Config, s: State, s': State)
    requires Inv(c, s) && c.limit == 0 && c.n > 0 && s.clients[0].Idle? && Step(c, s, s')
    ensures |s'.clients| == c.n && s'.clients[0].Idle?
  {
    assert s.sem == 0;
    hide FlightOk, ClientOk, Holders, ReapedOk;
  }

  lemma FullKept(c: Config, s: State, s': State)
    requires Inv(c, s) && s.worker.Sending? && |s.queue| >= c.cap && s.parent.Reaping? && Step(c, s, s')
    requires forall m :: m in s.queue ==> m.mtype == WORKER_TYPE
    ensures s'.worker.Sending? && |s'.queue| >= c.cap && s'.parent.Reaping?
      && forall m :: m in s'.queue ==> m.mtype == WORKER_TYPE
  {
    if i: nat :| ClientStep(c, s, s', i) {
      assert |s.clients| == c.n;
      FullClient(c, s, s', i);
    } else {
      hide Inv;
      assert !exists k :: Take(c, s, s', k);
    }
  }

  /** With nothing but requests in a full queue, clients neither receive nor send. */
  lemma FullClient(c: Config, s: State, s': State, i: nat)
    requires ClientStep(c, s, s', i) && |s.clients| == c.n < WORKER_TYPE && |s.queue| >= c.cap
    requires forall m :: m in s.queue ==> m.mtype == WORKER_TYPE
    ensures s'.queue == s.queue && s'.worker == s.worker && s'.parent == s.parent
  {
    assert forall k: nat :: k < |s.queue| ==> s.queue[k] in s.queue && s.queue[k].mtype == WORKER_TYPE;
    var own := i + 1;
    assert forall k: nat :: !FirstOf(s.queue, own, k);
    hide FirstOf, Without;
  }

  /** A jammed run ends in a state where no process can step although some have not exited. */
  lemma {:induction false} JamEnds(c: Config, s: State)
    requires Reachable(c, s) && Inv(c, s) && Jammed(c, s)
    ensures !DeadlockFree(c)
    decreases Work(c, s)
  {
    hide Step, Reachable, Work;
    if Stuck(c, s) {
      assert !Final(s);
    } else {
      var s' :| Step(c, s, s');
      StepKeepsInv(c, s, s');
      StepWork(c, s, s');
      WorkNat(c, s');
      WorkNat(c, s);
      JamKept(c, s, s');
      Extend(c, s, s');
      JamEnds(c, s');
    }
  }

  lemma Start(c: Config)
    ensures exists s :: Reachable(c, s) && Init(c, s)
  {
    var s := State(c.limit, [], seq(c.n, i => Next(c, 0)), Receiving, Reaping({}), seq(c.n, i => []));
    assert IsRun(c, [s]);
  }

  /** Client i takes the semaphore and sends its first request. */
  lemma AcquireAndSend(c: Config, s: State, i: nat) returns (t: State)
    requires Reachable(c, s) && i < |s.clients| == |s.received| && s.clients[i] == Idle(0) && s.sem >= 1
      && |s.queue| < c.cap
    ensures Reachable(c, t)
    ensures t == s.(sem := s.sem - 1, clients := s.clients[i := Sent(0)], queue := s.queue + [Request(i, 0)])
  {
    hide Reachable;
    var u := s.(sem := s.sem - 1, clients := s.clients[i := Holding(0)]);
    assert ClientStep(c, s, u, i);
    assert Step(c, s, u);
    Extend(c, s, u);
    t := u.(queue := u.queue + [Request(i, 0)], clients := u.clients[i := Sent(0)]);
    assert ClientStep(c, u, t, i);
    assert Step(c, u, t);
    Extend(c, u, t);
    assert t.clients == s.clients[i := Sent(0)];
  }

  /** Client 0 has sent a request and the worker has taken it; k further clients have sent theirs. */
  ghost predicate Filled(c: Config, s: State, k: nat) {
    && |s.clients| == |s.received| == c.n && s.sem + k + 1 == c.limit
    && |s.queue| == k && (forall m :: m in s.queue ==> m.mtype == WORKER_TYPE)
    && s.worker.Sending? && s.parent.Reaping? && forall i :: k < i < c.n ==> s.clients[i] == Idle(0)
  }

  lemma {:induction false} Fill(c: Config, k: nat)
    requires k <= c.cap && 1 <= c.cap && k < Min(c.limit, c.n) && c.r > 0
    ensures exists s :: Reachable(c, s) && Filled(c, s, k)
  {
    hide Reachable, Step;
    if k == 0 {
      Start(c);
      var s0 :| Reachable(c, s0) && Init(c, s0);
      var s1 := AcquireAndSend(c, s0, 0);
      var s := s1.(queue := Without(s1.queue, 0), worker := Sending(Answer(s1.queue[0])));
      FirstTake(c, s1, s);
      Extend(c, s1, s);
      assert Filled(c, s, k);
    } else {
      Fill(c, k - 1);
      var before :| Reachable(c, before) && Filled(c, before, k - 1);
      var s := AcquireAndSend(c, before, k);
      assert Filled(c, s, k);
    }
  }

  lemma FirstTake(c: Config, s: State, s': State)
    requires |s.queue| == 1 && s.queue[0].mtype == WORKER_TYPE && s.queue[0].ctrl != 'Q' && s.worker.Receiving?
    requires s' == s.(queue := Without(s.queue, 0), worker := Sending(Answer(s.queue[0])))
    ensures Step(c, s, s')
  {
    assert Take(c, s, s', 0);
    assert WorkerStep(c, s, s');
  }

  ghost predicate DeadlockFree(c: Config) {
    forall s :: Reachable(c, s) && Stuck(c, s) ==> Final(s)
  }

  /** No reachable state is stuck exactly when the queue can hold one message, and, if there are requests at all,
      as many as the semaphore lets clients have at once. With a smaller queue, clients can fill it while the worker
      tries to send a reply, and then nobody can proceed. */
  lemma DeadlockFreeIff(c: Config)
    requires c.n < WORKER_TYPE
    ensures DeadlockFree(c) <==> Roomy(c)
  {
    hide Reachable, Step, Inv, Final;
    if Roomy(c) {
      forall s | Reachable(c, s) && Stuck(c, s) ensures Final(s) {
        ReachableInv(c);
        Progress(c, s);
      }
    } else {
      Deadlock(c);
    }
  }

  lemma Deadlock(c: Config)
    requires c.n < WORKER_TYPE && !Roomy(c)
    ensures !DeadlockFree(c)
  {
    hide Reachable, Step, Inv, Final, Stuck;
    var s: State;
    if c.cap == 0 || c.limit == 0 {
      Start(c);
      s :| Reachable(c, s) && Init(c, s);
    } else {
      Fill(c, c.cap);
      s :| Reachable(c, s) && Filled(c, s, c.cap);
    }
    ReachableInv(c);
    JamEnds(c, s);
  }

  // ---------------------------------------------------------------- client numbers are message types

  ghost predicate OnlyReplies(c: Config) {
    forall s, i, k :: Reachable(c, s) && 0 <= i < |s.received| && 0 <= k < |s.received[i]| ==>
      s.received[i][k].ctrl == 'Y'
  }

  /** With 1000 or more clients, a client waits for the type the requests have, and takes one itself. */
  lemma OnlyRepliesIff(c: Config)
    requires c.r > 0 && c.limit > 0 && c.cap > 0
    ensures OnlyReplies(c) <==> c.n < 1000
  {
    hide Reachable, Step;
    if c.n < WORKER_TYPE {
      forall s, i, k | Reachable(c, s) && 0 <= i < |s.received| && 0 <= k < |s.received[i]|
        ensures s.received[i][k].ctrl == 'Y'
      {
        ReachableInv(c);
        ReceivesSquares(c, s);
      }
    } else {
      Start(c);
      var s0 :| Reachable(c, s0) && Init(c, s0);
      var i: nat := WORKER_TYPE - 1;
      var s1 := AcquireAndSend(c, s0, i);
      var s2 := s1.(queue := Without(s1.queue, 0), clients := s1.clients[i := Got(0)],
                    received := s1.received[i := s1.received[i] + [s1.queue[0]]]);
      OwnRequest(c, s1, s2, i);
      Extend(c, s1, s2);
      assert s2.received[i][0].ctrl == 'X';
    }
  }

  lemma OwnRequest(c: Config, s: State, s': State, i: nat)
    requires i < |s.clients| == |s.received| && i + 1 == WORKER_TYPE && s.clients[i] == Sent(0)
      && s.queue == [Request(i, 0)]
    requires s' == s.(queue := Without(s.queue, 0), clients := s.clients[i := Got(0)],
                      received := s.received[i := s.received[i] + [s.queue[0]]])
    ensures Step(c, s, s')
  {
    assert Receive(c, s, s', i, 0);
    assert ClientStep(c, s, s', i);
  }
}
