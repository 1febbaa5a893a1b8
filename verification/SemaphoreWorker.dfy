/** The worker and its clients (posix/ipc/semaphore.c): one message queue, one counting semaphore, every interleaving.

    Client i sends r requests, one at a time, and holds one unit of the semaphore from before each request until after
    its reply. The parent waits for n exits and then sends 'Q'. All processes share one System V message queue, in which
    a receiver takes the first message of its type and a sender waits while the queue holds cap messages. */
module SemaphoreWorker {
  import opened FiniteSets

  const WORKER_TYPE: nat := 1000

  datatype Msg = Msg(mtype: nat, ctrl: char, origin: nat, value: int)

  /** Where client i is within its request loop. */
  datatype Client =
    | Idle(j: nat)               // about to take the semaphore
    | Holding(j: nat)            // has it, about to send request j
    | Sent(j: nat)               // waiting for the reply
    | Got(j: nat)                // about to give the semaphore back
    | Exited

  datatype Worker = Receiving | Sending(msg: Msg) | Terminated

  /** The parent's wait() may reap any child that has exited; the worker is child 0, client i is child i + 1. */
  datatype Parent = Reaping(reaped: set<nat>) | Gone

  datatype State = State(sem: nat, queue: seq<Msg>, clients: seq<Client>, worker: Worker, parent: Parent,
                         received: seq<seq<Msg>>)   // what each client has received so far

  datatype Config = Config(n: nat, r: nat, limit: nat, cap: nat)

  function Request(i: nat, j: nat): Msg { Msg(WORKER_TYPE, 'X', i + 1, j) }

  function Reply(i: nat, j: nat): Msg { Msg(i + 1, 'Y', WORKER_TYPE, j * j) }

  /** The worker reuses the message it received. */
  function Answer(m: Msg): Msg { Msg(m.origin, 'Y', WORKER_TYPE, m.value * m.value) }

  function Next(c: Config, j: nat): Client { if j < c.r then Idle(j) else Exited }

  // ---------------------------------------------------------------- steps

  ghost predicate Init(c: Config, s: State) {
    && s.sem == c.limit && s.queue == [] && s.worker == Receiving && s.parent == Reaping({})
    && |s.clients| == |s.received| == c.n
    && forall i :: 0 <= i < c.n ==> s.clients[i] == Next(c, 0) && s.received[i] == []
  }

  /** The first message of type t is at position k. */
  ghost predicate FirstOf(queue: seq<Msg>, t: nat, k: nat) {
    k < |queue| && queue[k].mtype == t && forall p :: 0 <= p < k ==> queue[p].mtype != t
  }

  function Without(queue: seq<Msg>, k: nat): seq<Msg>
    requires k < |queue|
  {
    queue[..k] + queue[k + 1..]
  }

  ghost predicate Acquire(c: Config, s: State, s': State, i: nat)
    requires i < |s.clients|
  {
    && s.clients[i].Idle? && s.sem >= 1
    && s' == s.(sem := s.sem - 1, clients := s.clients[i := Holding(s.clients[i].j)])
  }

  ghost predicate Send(c: Config, s: State, s': State, i: nat)
    requires i < |s.clients|
  {
    && s.clients[i].Holding? && |s.queue| < c.cap
    && s' == s.(queue := s.queue + [Request(i, s.clients[i].j)], clients := s.clients[i := Sent(s.clients[i].j)])
  }

  ghost predicate Receive(c: Config, s: State, s': State, i: nat, k: nat)
    requires i < |s.clients| == |s.received|
  {
    && s.clients[i].Sent? && FirstOf(s.queue, i + 1, k)
    && s' == s.(queue := Without(s.queue, k), clients := s.clients[i := Got(s.clients[i].j)],
                received := s.received[i := s.received[i] + [s.queue[k]]])
  }

  ghost predicate Release(c: Config, s: State, s': State, i: nat)
    requires i < |s.clients|
  {
    && s.clients[i].Got?
    && s' == s.(sem := s.sem + 1, clients := s.clients[i := Next(c, s.clients[i].j + 1)])
  }

  ghost predicate Take(c: Config, s: State, s': State, k: nat) {
    && s.worker.Receiving? && FirstOf(s.queue, WORKER_TYPE, k)
    && s' == s.(queue := Without(s.queue, k),
                worker := if s.queue[k].ctrl == 'Q' then Terminated else Sending(Answer(s.queue[k])))
  }

  ghost predicate SendReply(c: Config, s: State, s': State) {
    && s.worker.Sending? && |s.queue| < c.cap
    && s' == s.(queue := s.queue + [s.worker.msg], worker := Receiving)
  }

  ghost predicate HasExited(s: State, child: nat) {
    if child == 0 then s.worker.Terminated? else child <= |s.clients| && s.clients[child - 1].Exited?
  }

  ghost predicate Reap(c: Config, s: State, s': State, child: nat) {
    && s.parent.Reaping? && |s.parent.reaped| < c.n && child !in s.parent.reaped && HasExited(s, child)
    && s' == s.(parent := Reaping(s.parent.reaped + {child}))
  }

  /** The parent's message carries whatever origin and value its variable holds. */
  ghost predicate SendQuit(c: Config, s: State, s': State, m: Msg) {
    && s.parent.Reaping? && |s.parent.reaped| == c.n && |s.queue| < c.cap
    && m.mtype == WORKER_TYPE && m.ctrl == 'Q'
    && s' == s.(queue := s.queue + [m], parent := Gone)
  }

  ghost predicate ClientStep(c: Config, s: State, s': State, i: nat) {
    && i < |s.clients| == |s.received|
    && (Acquire(c, s, s', i) || Send(c, s, s', i) || (exists k :: Receive(c, s, s', i, k)) || Release(c, s, s', i))
  }

  ghost predicate WorkerStep(c: Config, s: State, s': State) {
    (exists k :: Take(c, s, s', k)) || SendReply(c, s, s')
  }

  ghost predicate ParentStep(c: Config, s: State, s': State) {
    (exists child :: Reap(c, s, s', child)) || (exists m :: SendQuit(c, s, s', m))
  }

  ghost predicate Step(c: Config, s: State, s': State) {
    (exists i :: ClientStep(c, s, s', i)) || WorkerStep(c, s, s') || ParentStep(c, s, s')
  }

  ghost predicate IsRun(c: Config, run: seq<State>) {
    |run| > 0 && Init(c, run[0]) && forall k :: 0 <= k < |run| - 1 ==> Step(c, run[k], run[k + 1])
  }

  ghost predicate Reachable(c: Config, s: State) {
    exists run :: IsRun(c, run) && run[|run| - 1] == s
  }

  /** Every process has exited. */
  ghost predicate Final(s: State) {
    s.parent.Gone? && s.worker.Terminated? && forall i :: 0 <= i < |s.clients| ==> s.clients[i].Exited?
  }

  ghost predicate Stuck(c: Config, s: State) {
    forall s' :: !Step(c, s, s')
  }

  // ---------------------------------------------------------------- the invariant

  ghost predicate Holds(s: State, i: nat) {
    i < |s.clients| && (s.clients[i].Holding? || s.clients[i].Sent? || s.clients[i].Got?)
  }

  ghost function Holders(s: State): set<nat> {
    set i: nat | i < |s.clients| && Holds(s, i)
  }

  /** The number of the client a message is about, counted from 1. */
  function Owner(m: Msg): nat { if m.mtype == WORKER_TYPE then m.origin else m.mtype }

  /** m is the current request of its client or the reply to it. */
  ghost predicate Current(s: State, m: Msg) {
    && 1 <= Owner(m) <= |s.clients|
    && var i := Owner(m) - 1;
       s.clients[i].Sent? && (m == Request(i, s.clients[i].j) || m == Reply(i, s.clients[i].j))
  }

  ghost predicate InQueue(s: State, i: nat) {
    exists m :: m in s.queue && Owner(m) == i + 1
  }

  ghost predicate AtWorker(s: State, i: nat) {
    s.worker.Sending? && Owner(s.worker.msg) == i + 1
  }

  ghost predicate Distinct(queue: seq<Msg>) {
    forall p, q :: 0 <= p < q < |queue| ==> Owner(queue[p]) != Owner(queue[q])
  }

  /** Each client that waits has exactly one message in flight, and no other message is in flight. */
  ghost predicate FlightOk(s: State) {
    && (forall m :: m in s.queue ==> Current(s, m))
    && Distinct(s.queue)
    && (s.worker.Sending? ==> Current(s, s.worker.msg) && s.worker.msg.ctrl == 'Y')
    && (s.worker.Sending? ==> forall m :: m in s.queue ==> Owner(m) != Owner(s.worker.msg))
    && (forall i: nat :: i < |s.clients| && s.clients[i].Sent? ==> InQueue(s, i) || AtWorker(s, i))
  }

  /** How many replies the client has received. */
  function Received(c: Config, pc: Client): nat {
    match pc
    case Idle(j) => j
    case Holding(j) => j
    case Sent(j) => j
    case Got(j) => j + 1
    case Exited => c.r
  }

  /** The client's j-th receive was exactly the reply to its own j-th request. */
  ghost predicate ClientOk(c: Config, s: State, i: nat)
    requires i < |s.clients| == |s.received|
  {
    && (!s.clients[i].Exited? ==> s.clients[i].j < c.r)
    && |s.received[i]| == Received(c, s.clients[i])
    && forall k :: 0 <= k < |s.received[i]| ==> s.received[i][k] == Reply(i, k)
  }

  ghost predicate AllExited(s: State) {
    forall i :: 0 <= i < |s.clients| ==> s.clients[i].Exited?
  }

  ghost predicate ReapedOk(s: State, reaped: set<nat>) {
    forall child: nat :: child in reaped ==> 1 <= child <= |s.clients| && s.clients[child - 1].Exited?
  }

  ghost predicate ShutdownOk(c: Config, s: State) {
    match s.parent
    case Reaping(reaped) =>
      !s.worker.Terminated? && FlightOk(s) && |reaped| <= c.n && ReapedOk(s, reaped)
    case Gone =>
      && AllExited(s)
      && ( || (s.worker.Receiving? && |s.queue| == 1 && s.queue[0].mtype == WORKER_TYPE && s.queue[0].ctrl == 'Q')
           || (s.worker.Terminated? && s.queue == []))
  }

  ghost predicate Inv(c: Config, s: State) {
    && |s.clients| == |s.received| == c.n < WORKER_TYPE
    && |Holders(s)| + s.sem == c.limit
    && (forall i: nat :: i < c.n ==> ClientOk(c, s, i))
    && ShutdownOk(c, s)
  }

  lemma InitInv(c: Config)
    requires c.n < WORKER_TYPE
    ensures forall s :: Init(c, s) ==> Inv(c, s)
  {
    forall s | Init(c, s) ensures Inv(c, s) {
      assert Holders(s) == {};
    }
  }

  /** Only client i has moved. */
  lemma OthersKept(c: Config, s: State, s': State, i: nat)
    requires |s.clients| == |s.received| == |s'.clients| == |s'.received| == c.n
    requires forall k: nat :: k < c.n && k != i ==> s'.clients[k] == s.clients[k] && s'.received[k] == s.received[k]
    requires forall k: nat :: k < c.n ==> ClientOk(c, s, k)
    requires i < c.n ==> ClientOk(c, s', i)
    ensures forall k: nat :: k < c.n ==> ClientOk(c, s', k)
  {
    forall k: nat | k < c.n ensures ClientOk(c, s', k) { assert ClientOk(c, s, k); }
  }

  /** FlightOk depends on the queue, the worker and the waiting clients only. */
  lemma FlightFrame(s: State, s': State)
    requires FlightOk(s) && s'.queue == s.queue && s'.worker == s.worker && |s'.clients| == |s.clients|
    requires forall i :: 0 <= i < |s.clients| ==>
      s'.clients[i] == s.clients[i] || (!s.clients[i].Sent? && !s'.clients[i].Sent?)
    ensures FlightOk(s')
  {
    forall m | m in s.queue ensures Current(s', m) { assert Current(s, m); }
    forall i: nat | i < |s'.clients| && s'.clients[i].Sent? ensures InQueue(s', i) || AtWorker(s', i) {
      assert InQueue(s, i) || AtWorker(s, i);
    }
  }

  lemma OneMoves(s: State, s': State, i: nat)
    requires i < |s.clients| == |s'.clients|
    requires forall k :: 0 <= k < |s.clients| && k != i ==> s'.clients[k] == s.clients[k]
    ensures |Holders(s')| + (if Holds(s, i) then 1 else 0) == |Holders(s)| + (if Holds(s', i) then 1 else 0)
  {
    assert Holders(s) - {i} == Holders(s') - {i};
    assert i in Holders(s) <==> Holds(s, i);
    assert i in Holders(s') <==> Holds(s', i);
    CardWithout(Holders(s), i);
    CardWithout(Holders(s'), i);
    hide Holders, Holds;
  }

  lemma CardWithout(x: set<nat>, i: nat)
    ensures |x - {i}| == |x| - if i in x then 1 else 0
  {
    if i !in x { assert x - {i} == x; }
  }

  lemma KeepAcquire(c: Config, s: State, s': State)
    requires Inv(c, s)
    ensures forall i: nat :: i < c.n && Acquire(c, s, s', i) ==> Inv(c, s')
  {
    forall i: nat | i < c.n && Acquire(c, s, s', i) ensures Inv(c, s') {
      FlightFrame(s, s');
      hide FlightOk, Holders;
      OneMoves(s, s', i);
      assert ClientOk(c, s, i);
      OthersKept(c, s, s', i);
      hide ClientOk;
    }
  }

  lemma KeepSend(c: Config, s: State, s': State)
    requires Inv(c, s)
    ensures forall i: nat :: i < c.n && Send(c, s, s', i) ==> Inv(c, s')
  {
    hide FlightOk;
    forall i: nat | i < c.n && Send(c, s, s', i) ensures Inv(c, s') {
      assert Holders(s') == Holders(s);
      SendFlight(c, s, s', i);
      assert ClientOk(c, s, i);
      OthersKept(c, s, s', i);
    }
  }

  lemma SendFlight(c: Config, s: State, s': State, i: nat)
    requires |s.clients| < WORKER_TYPE && FlightOk(s) && i < |s.clients| && Send(c, s, s', i)
    ensures FlightOk(s')
  {
    var m := Request(i, s.clients[i].j);
    forall x | x in s.queue ensures Current(s', x) && Owner(x) != Owner(m) { assert Current(s, x); }
    DistinctAppend(s.queue, m);
    forall k: nat | k < |s'.clients| && s'.clients[k].Sent? ensures InQueue(s', k) || AtWorker(s', k) {
      assert m in s'.queue;
      assert k != i ==> InQueue(s, k) || AtWorker(s, k);
    }
  }

  lemma DistinctAppend(queue: seq<Msg>, m: Msg)
    requires Distinct(queue) && forall x :: x in queue ==> Owner(x) != Owner(m)
    ensures Distinct(queue + [m])
    ensures forall x :: x in queue + [m] <==> x in queue || x == m
  {
  }

  /** What is left in the queue when one message is taken out. */
  lemma DistinctWithout(queue: seq<Msg>, k: nat)
    requires Distinct(queue) && k < |queue|
    ensures Distinct(Without(queue, k))
    ensures forall x :: x in Without(queue, k) <==> x in queue && Owner(x) != Owner(queue[k])
  {
    var w := Without(queue, k);
    assert forall p :: 0 <= p < |w| ==> w[p] == queue[if p < k then p else p + 1];
    forall x | x in queue && Owner(x) != Owner(queue[k]) ensures x in w {
      var p :| 0 <= p < |queue| && queue[p] == x;
      assert w[if p < k then p else p - 1] == x;
    }
  }

  /** A message addressed to client i is the reply to its current request. */
  lemma ReceiveIsReply(s: State, i: nat, k: nat)
    requires |s.clients| < WORKER_TYPE && FlightOk(s) && i < |s.clients| && FirstOf(s.queue, i + 1, k)
    ensures s.clients[i].Sent? && s.queue[k] == Reply(i, s.clients[i].j)
  {
    assert Current(s, s.queue[k]);
  }

  lemma KeepReceive(c: Config, s: State, s': State)
    requires Inv(c, s)
    ensures forall i: nat, k: nat :: i < c.n && Receive(c, s, s', i, k) ==> Inv(c, s')
  {
    forall i: nat, k: nat | i < c.n && Receive(c, s, s', i, k) ensures Inv(c, s') {
      assert Holders(s') == Holders(s);
      assert ClientOk(c, s, i);
      ReceiveIsReply(s, i, k);
      OthersKept(c, s, s', i);
      ReceiveFlight(c, s, s', i, k);
    }
  }

  /** A message of another client stays current. */
  lemma CurrentKept(s: State, s': State, i: nat, m: Msg)
    requires Current(s, m) && Owner(m) != i + 1 && |s'.clients| == |s.clients|
    requires forall q: nat :: q < |s.clients| && q != i ==> s'.clients[q] == s.clients[q]
    ensures Current(s', m)
  {
  }

  lemma ReceiveFlight(c: Config, s: State, s': State, i: nat, k: nat)
    requires |s.clients| == |s.received| < WORKER_TYPE && FlightOk(s) && i < |s.clients| && Receive(c, s, s', i, k)
    ensures FlightOk(s')
  {
    DistinctWithout(s.queue, k);
    ReceiveIsReply(s, i, k);
    assert Owner(s.queue[k]) == i + 1 && s.queue[k] in s.queue;
    hide Without, Current, FirstOf, Owner;
    forall m | m in s'.queue ensures Current(s', m) { CurrentKept(s, s', i, m); }
    if s'.worker.Sending? { CurrentKept(s, s', i, s'.worker.msg); }
    forall q: nat | q < |s'.clients| && s'.clients[q].Sent? ensures InQueue(s', q) || AtWorker(s', q) {
      assert InQueue(s, q) || AtWorker(s, q);
    }
  }

  lemma KeepRelease(c: Config, s: State, s': State)
    requires Inv(c, s)
    ensures forall i: nat :: i < c.n && Release(c, s, s', i) ==> Inv(c, s')
  {
    forall i: nat | i < c.n && Release(c, s, s', i) ensures Inv(c, s') {
      FlightFrame(s, s');
      hide FlightOk, Holders;
      OneMoves(s, s', i);
      assert ClientOk(c, s, i);
      OthersKept(c, s, s', i);
    }
  }

  lemma KeepTake(c: Config, s: State, s': State)
    requires Inv(c, s)
    ensures forall k: nat :: Take(c, s, s', k) ==> Inv(c, s')
  {
    forall k: nat | Take(c, s, s', k) ensures Inv(c, s') {
      assert Holders(s') == Holders(s);
      OthersKept(c, s, s', c.n);
      if s.parent.Reaping? { TakeFlight(c, s, s'); }
    }
  }

  lemma TakeFlight(c: Config, s: State, s': State)
    requires |s.clients| < WORKER_TYPE && FlightOk(s)
    ensures forall k: nat :: Take(c, s, s', k) ==> FlightOk(s') && s'.worker.Sending?
  {
    forall k: nat | Take(c, s, s', k) ensures FlightOk(s') && s'.worker.Sending? {
      DistinctWithout(s.queue, k);
      var m := s.queue[k];
      assert Current(s, m) && m.ctrl == 'X' && Current(s, Answer(m)) && Owner(Answer(m)) == Owner(m);
      hide Without;
      forall m | m in s'.queue ensures Current(s', m) { assert Current(s, m); }
      assert Current(s', s'.worker.msg);
      forall q: nat | q < |s'.clients| && s'.clients[q].Sent? ensures InQueue(s', q) || AtWorker(s', q) {
        assert InQueue(s, q);
      }
    }
  }

  lemma KeepSendReply(c: Config, s: State, s': State)
    requires Inv(c, s) && SendReply(c, s, s')
    ensures Inv(c, s')
  {
    assert Holders(s') == Holders(s);
    OthersKept(c, s, s', c.n);
    SendReplyFlight(c, s, s');
  }

  lemma SendReplyFlight(c: Config, s: State, s': State)
    requires |s.clients| < WORKER_TYPE && FlightOk(s) && SendReply(c, s, s')
    ensures FlightOk(s')
  {
    var m := s.worker.msg;
    DistinctAppend(s.queue, m);
    forall x | x in s'.queue ensures Current(s', x) { assert Current(s, x); }
    forall k: nat | k < |s'.clients| && s'.clients[k].Sent? ensures InQueue(s', k) || AtWorker(s', k) {
      assert m in s'.queue;
      assert InQueue(s, k) || AtWorker(s, k);
    }
  }

  /** The parent reaps clients only: the worker does not exit before the parent has reaped n children. */
  lemma KeepReap(c: Config, s: State, s': State, child: nat)
    requires Inv(c, s) && Reap(c, s, s', child)
    ensures Inv(c, s')
    ensures 1 <= child <= c.n && s.clients[child - 1].Exited?
  {
    assert Holders(s') == Holders(s);
    OthersKept(c, s, s', c.n);
    FlightFrame(s, s');
  }

  /** Once the parent has reaped n children, they are the n clients. */
  lemma ReapedAll(c: Config, s: State)
    requires Inv(c, s) && s.parent.Reaping? && |s.parent.reaped| == c.n
    ensures AllExited(s)
  {
    var below := SlotsBelow(c.n + 1);
    assert s.parent.reaped <= below - {0};
    SubsetCard(s.parent.reaped, below - {0});
    forall i | 0 <= i < c.n ensures s.clients[i].Exited? {
      assert i + 1 in below - {0};
    }
  }

  /** With no client waiting, nothing is in flight. */
  lemma NothingInFlight(s: State)
    requires FlightOk(s) && forall i :: 0 <= i < |s.clients| ==> !s.clients[i].Sent?
    ensures s.queue == [] && !s.worker.Sending?
  {
    assert |s.queue| > 0 ==> s.queue[0] in s.queue && Current(s, s.queue[0]);
  }

  lemma KeepSendQuit(c: Config, s: State, s': State)
    requires Inv(c, s)
    ensures forall m :: SendQuit(c, s, s', m) ==> Inv(c, s') && s.queue == [] && s.worker == Receiving && AllExited(s)
  {
    forall m | SendQuit(c, s, s', m)
      ensures Inv(c, s') && s.queue == [] && s.worker == Receiving && AllExited(s)
    {
      ReapedAll(c, s);
      NothingInFlight(s);
      assert Holders(s') == Holders(s);
      forall i: nat | i < c.n ensures ClientOk(c, s', i) { assert ClientOk(c, s, i); }
    }
  }

  lemma StepKeepsInv(c: Config, s: State, s': State)
    requires Inv(c, s) && Step(c, s, s')
    ensures Inv(c, s')
  {
    assert |s.clients| == c.n;
    hide Inv, Acquire, Send, Release, Receive, Take, SendReply, Reap, SendQuit;
    if exists i :: ClientStep(c, s, s', i) {
      KeepAcquire(c, s, s');
      KeepSend(c, s, s');
      KeepReceive(c, s, s');
      KeepRelease(c, s, s');
    } else if WorkerStep(c, s, s') {
      KeepTake(c, s, s');
      if SendReply(c, s, s') { KeepSendReply(c, s, s'); }
    } else if child :| Reap(c, s, s', child) {
      KeepReap(c, s, s', child);
    } else {
      KeepSendQuit(c, s, s');
    }
  }

  lemma {:induction false} RunInv(c: Config, run: seq<State>)
    requires IsRun(c, run) && c.n < WORKER_TYPE
    ensures forall i :: 0 <= i < |run| ==> Inv(c, run[i])
    decreases |run|
  {
    hide Inv, Init, Step;
    if |run| == 1 {
      InitInv(c);
    } else {
      var rest := run[..|run| - 1];
      assert Step(c, run[|run| - 2], run[|run| - 2 + 1]);
      assert forall k :: 0 <= k < |rest| - 1 ==> Step(c, run[k], run[k + 1]) ==> Step(c, rest[k], rest[k + 1]);
      RunInv(c, rest);
      assert forall i :: 0 <= i < |rest| ==> run[i] == rest[i];
      StepKeepsInv(c, run[|run| - 2], run[|run| - 1]);
    }
  }

  /** The invariant holds in every state of every run. */
  lemma ReachableInv(c: Config)
    requires c.n < WORKER_TYPE
    ensures forall s :: Reachable(c, s) ==> Inv(c, s)
  {
    hide Inv, Init, Step;
    forall s | Reachable(c, s) ensures Inv(c, s) {
      var run :| IsRun(c, run) && run[|run| - 1] == s;
      RunInv(c, run);
    }
  }

  /** As many messages as owners, all of them in owners. */
  lemma {:induction false} OwnersCard(queue: seq<Msg>, owners: set<nat>)
    requires Distinct(queue) && forall m :: m in queue ==> Owner(m) > 0 && Owner(m) - 1 in owners
    ensures |queue| <= |owners|
  {
    if queue != [] {
      var rest := queue[..|queue| - 1];
      var last := queue[|queue| - 1];
      assert forall m :: m in rest ==> m in queue && Owner(m) != Owner(last);
      OwnersCard(rest, owners - {Owner(last) - 1});
    }
  }

  /** Everything in flight is held by a different client, so the semaphore bounds the queue. */
  lemma FlightBound(c: Config, s: State)
    requires Inv(c, s) && s.parent.Reaping?
    ensures |s.queue| + (if s.worker.Sending? then 1 else 0) <= |Holders(s)| <= c.n
    ensures |Holders(s)| <= c.limit
  {
    var below := SlotsBelow(c.n);
    SubsetCard(Holders(s), below);
    var flight := if s.worker.Sending? then s.queue + [s.worker.msg] else s.queue;
    if s.worker.Sending? { DistinctAppend(s.queue, s.worker.msg); }
    forall m | m in flight ensures Owner(m) > 0 && Owner(m) - 1 in Holders(s) { assert Current(s, m); }
    OwnersCard(flight, Holders(s));
  }

  /** At most limit messages are ever in the queue; the 'Q' at the end is alone in it. */
  lemma QueueBound(c: Config, s: State)
    requires Reachable(c, s) && c.n < WORKER_TYPE
    ensures s.parent.Reaping? ==> |s.queue| + (if s.worker.Sending? then 1 else 0) <= c.limit
    ensures s.parent.Gone? ==> |s.queue| <= 1 && !s.worker.Sending?
  {
    ReachableInv(c);
    if s.parent.Reaping? { FlightBound(c, s); }
  }

  /** At most limit clients are between taking and giving back the semaphore. */
  lemma HolderBound(c: Config, s: State)
    requires Reachable(c, s) && c.n < WORKER_TYPE
    ensures |Holders(s)| + s.sem == c.limit
  {
    ReachableInv(c);
  }

  /** The k-th message client i receives is the square of its own k-th request; a client that has exited has all r of
      them. */
  lemma ReceivesSquares(c: Config, s: State)
    requires Reachable(c, s) && c.n < WORKER_TYPE
    ensures |s.clients| == |s.received| == c.n
    ensures forall i :: 0 <= i < c.n ==>
      && (s.clients[i].Exited? ==> |s.received[i]| == c.r)
      && forall k :: 0 <= k < |s.received[i]| ==> s.received[i][k] == Msg(i + 1, 'Y', 1000, k * k)
  {
    ReachableInv(c);
    forall i | 0 <= i < c.n
      ensures s.clients[i].Exited? ==> |s.received[i]| == c.r
      ensures forall k :: 0 <= k < |s.received[i]| ==> s.received[i][k] == Msg(i + 1, 'Y', 1000, k * k)
    {
      assert ClientOk(c, s, i);
    }
  }

  /** When the parent sends 'Q', nothing is in the queue, the worker is idle, and every client has all its replies. */
  lemma QuitIsLast(c: Config, s: State, s': State)
    requires Reachable(c, s) && Step(c, s, s') && c.n < WORKER_TYPE && s.parent.Reaping? && s'.parent.Gone?
    ensures s.queue == [] && s.worker == Receiving && AllExited(s)
  {
    ReachableInv(c);
    assert !exists i :: ClientStep(c, s, s', i);
    assert !WorkerStep(c, s, s');
    assert !exists child :: Reap(c, s, s', child);
    KeepSendQuit(c, s, s');
  }
}
