/** Clients that crash (posix/ipc/semaphore.c): the semaphore operations carry SEM_UNDO, so that the kernel gives back
    the unit a crashed client held, while the message it had in flight stays where it is. */
module SemaphoreCrashes {
  import opened FiniteSets
  import opened Numbers
  import opened SemaphoreWorker

  ghost predicate Crash(s: State, s': State, i: nat) {
    && i < |s.clients| && !s.clients[i].Exited?
    && s' == s.(sem := if Holds(s, i) then s.sem + 1 else s.sem, clients := s.clients[i := Exited])
  }

  ghost predicate StepOrCrash(c: Config, s: State, s': State) {
    Step(c, s, s') || exists i :: Crash(s, s', i)
  }

  ghost predicate IsCrashRun(c: Config, run: seq<State>) {
    |run| > 0 && Init(c, run[0]) && forall k :: 0 <= k < |run| - 1 ==> StepOrCrash(c, run[k], run[k + 1])
  }

  ghost predicate CrashReachable(c: Config, s: State) {
    exists run :: IsCrashRun(c, run) && run[|run| - 1] == s
  }

  /** How many messages are in the queue and at the worker. */
  function InFlight(s: State): nat {
    |s.queue| + if s.worker.Sending? then 1 else 0
  }

  // ---------------------------------------------------------------- the invariant

  /** A message belongs to a client that waits for it, or has crashed. */
  ghost predicate Owned(s: State, m: Msg) {
    && 1 <= Owner(m) <= |s.clients| && m.ctrl != 'Q'
    && (s.clients[Owner(m) - 1].Sent? || s.clients[Owner(m) - 1].Exited?)
  }

  /** Nothing can be sent: there is nothing to send, or no unit of the semaphore. */
  predicate Silent(c: Config) { c.r == 0 || c.limit == 0 || c.cap == 0 }

  ghost predicate SilentOk(c: Config, s: State) {
    && s.queue == [] && s.worker.Receiving?
    && (c.cap > 0 ==> forall i :: 0 <= i < |s.clients| ==> s.clients[i].Exited? || (s.clients[i].Idle? && s.sem == 0))
  }

  ghost predicate FlightInv(c: Config, s: State) {
    && |s.queue| <= c.cap && !s.worker.Terminated?
    && (forall m :: m in s.queue ==> Owned(s, m))
    && Distinct(s.queue)
    && (s.worker.Sending? ==> Owned(s, s.worker.msg))
    && (s.worker.Sending? ==> forall m :: m in s.queue ==> Owner(m) != Owner(s.worker.msg))
    && (Silent(c) ==> SilentOk(c, s))
  }

  ghost predicate CrashInv(c: Config, s: State) {
    && |s.clients| == |s.received| == c.n < WORKER_TYPE
    && |Holders(s)| + s.sem == c.limit
    && (s.parent.Reaping? ==> FlightInv(c, s))
  }

  lemma InitCrashInv(c: Config)
    requires c.n < WORKER_TYPE
    ensures forall s :: Init(c, s) ==> CrashInv(c, s)
  {
    forall s | Init(c, s) ensures CrashInv(c, s) {
      assert Holders(s) == {};
    }
  }

  /** Whoever leaves the semaphore, by itself or by a crash, gives its unit back. */
  lemma HoldersBalanced(c: Config, s: State, s': State)
    requires CrashInv(c, s) && StepOrCrash(c, s, s')
    ensures |s'.clients| == |s'.received| == c.n && |Holders(s')| + s'.sem == c.limit
  {
    hide FlightInv;
    if i: nat :| Crash(s, s', i) {
      OneMoves(s, s', i);
    } else if i: nat :| ClientStep(c, s, s', i) {
      ClientBalanced(c, s, s', i);
    } else {
      assert s'.clients == s.clients;
      assert Holders(s') == Holders(s);
    }
  }

  lemma ClientBalanced(c: Config, s: State, s': State, i: nat)
    requires |s.clients| == |s.received| && ClientStep(c, s, s', i)
    ensures |s'.clients| == |s'.received| == |s.clients| && |Holders(s')| + s'.sem == |Holders(s)| + s.sem
  {
    OneMoves(s, s', i);
    hide Holders, Without, FirstOf;
  }

  /** Messages stay with their owners while nobody stops waiting but by a crash. */
  lemma OwnersKept(c: Config, s: State, s': State)
    requires FlightInv(c, s) && s'.queue == s.queue && s'.worker == s.worker && |s'.clients| == |s.clients|
    requires forall i :: 0 <= i < |s.clients| && (s.clients[i].Sent? || s.clients[i].Exited?) ==>
      s'.clients[i].Sent? || s'.clients[i].Exited?
    requires Silent(c) ==> SilentOk(c, s')
    ensures FlightInv(c, s')
  {
    forall m | m in s.queue ensures Owned(s', m) { assert Owned(s, m); }
  }

  lemma SendKeepsFlight(c: Config, s: State, s': State, i: nat)
    requires FlightInv(c, s) && i < |s.clients| < WORKER_TYPE && Send(c, s, s', i)
    ensures FlightInv(c, s')
  {
    var m := Request(i, s.clients[i].j);
    forall x | x in s.queue ensures Owned(s', x) && Owner(x) != Owner(m) { assert Owned(s, x); }
    DistinctAppend(s.queue, m);
  }

  lemma ReceiveKeepsFlight(c: Config, s: State, s': State, i: nat, k: nat)
    requires FlightInv(c, s) && i < |s.clients| == |s.received| < WORKER_TYPE && Receive(c, s, s', i, k)
    ensures FlightInv(c, s')
  {
    DistinctWithout(s.queue, k);
    assert s.queue[k] in s.queue && Owner(s.queue[k]) == i + 1;
    hide Without;
    forall x | x in s'.queue ensures Owned(s', x) { assert Owned(s, x); }
  }

  lemma TakeKeepsFlight(c: Config, s: State, s': State)
    requires FlightInv(c, s) && |s.clients| < WORKER_TYPE
    ensures forall k: nat :: Take(c, s, s', k) ==> FlightInv(c, s')
  {
    forall k: nat | Take(c, s, s', k) ensures FlightInv(c, s') {
      DistinctWithout(s.queue, k);
      assert Owned(s, s.queue[k]) by { assert s.queue[k] in s.queue; }
      assert Owner(Answer(s.queue[k])) == Owner(s.queue[k]);
      assert |Without(s.queue, k)| == |s.queue| - 1;
      hide Without;
      forall x | x in s'.queue ensures Owned(s', x) { assert Owned(s, x); }
    }
  }

  lemma ReplyKeepsFlight(c: Config, s: State, s': State)
    requires FlightInv(c, s) && SendReply(c, s, s')
    ensures FlightInv(c, s')
  {
    DistinctAppend(s.queue, s.worker.msg);
    forall x | x in s'.queue ensures Owned(s', x) { assert Owned(s, x); }
  }

  lemma ClientKeepsFlight(c: Config, s: State, s': State, i: nat)
    requires CrashInv(c, s) && s.parent.Reaping? && ClientStep(c, s, s', i)
    ensures FlightInv(c, s')
  {
    hide FlightInv, Send, Receive;
    if Send(c, s, s', i) {
      SendKeepsFlight(c, s, s', i);
    } else if k: nat :| Receive(c, s, s', i, k) {
      ReceiveKeepsFlight(c, s, s', i, k);
    } else {
      assert Silent(c) ==> SilentOk(c, s') by { SilentKept(c, s, s', i); }
      OwnersKept(c, s, s');
    }
  }

  lemma SilentKept(c: Config, s: State, s': State, i: nat)
    requires FlightInv(c, s) && i < |s.clients| && (Acquire(c, s, s', i) || Release(c, s, s', i) || Crash(s, s', i))
    ensures Silent(c) ==> SilentOk(c, s')
  {
  }

  lemma StepKeepsFlight(c: Config, s: State, s': State)
    requires CrashInv(c, s) && StepOrCrash(c, s, s') && s'.parent.Reaping?
    ensures FlightInv(c, s')
  {
    hide FlightInv, ClientStep, Take, SendReply;
    assert s.parent.Reaping? by { OnlyQuitIsGone(c, s, s'); }
    if i: nat :| Crash(s, s', i) {
      SilentKept(c, s, s', i);
      OwnersKept(c, s, s');
    } else if i: nat :| ClientStep(c, s, s', i) {
      ClientKeepsFlight(c, s, s', i);
    } else if exists k: nat :: Take(c, s, s', k) {
      TakeKeepsFlight(c, s, s');
    } else if SendReply(c, s, s') {
      ReplyKeepsFlight(c, s, s');
    } else {
      ReapKeepsFlight(c, s, s');
    }
  }

  lemma ReapKeepsFlight(c: Config, s: State, s': State)
    requires FlightInv(c, s) && s' == s.(parent := s'.parent)
    ensures FlightInv(c, s')
  {
    OwnersKept(c, s, s');
  }

  lemma OnlyQuitIsGone(c: Config, s: State, s': State)
    requires StepOrCrash(c, s, s') && s'.parent.Reaping?
    ensures s.parent.Reaping?
  {
  }

  lemma StepKeepsCrashInv(c: Config, s: State)
    requires CrashInv(c, s)
    ensures forall s' :: StepOrCrash(c, s, s') ==> CrashInv(c, s')
  {
    hide StepOrCrash, FlightInv, Holders;
    forall s' | StepOrCrash(c, s, s') ensures CrashInv(c, s') {
      HoldersBalanced(c, s, s');
      if s'.parent.Reaping? { StepKeepsFlight(c, s, s'); }
    }
  }

  lemma {:induction false} CrashRunInv(c: Config, run: seq<State>)
    requires IsCrashRun(c, run) && c.n < WORKER_TYPE
    ensures forall i :: 0 <= i < |run| ==> CrashInv(c, run[i])
    decreases |run|
  {
    hide CrashInv, Init, StepOrCrash;
    if |run| == 1 {
      InitCrashInv(c);
    } else {
      var rest := run[..|run| - 1];
      var s, s' := run[|run| - 2], run[|run| - 1];
      assert StepOrCrash(c, run[|run| - 2], run[|run| - 2 + 1]);
      assert forall k :: 0 <= k < |rest| - 1 ==>
        StepOrCrash(c, run[k], run[k + 1]) ==> StepOrCrash(c, rest[k], rest[k + 1]);
      CrashRunInv(c, rest);
      assert forall i :: 0 <= i < |rest| ==> run[i] == rest[i];
      StepKeepsCrashInv(c, s);
    }
  }

  /** Whoever crashes: the semaphore is balanced, and before the shutdown each message in flight has its own owner. */
  lemma CrashReachableInv(c: Config)
    requires c.n < WORKER_TYPE
    ensures forall s :: CrashReachable(c, s) ==> CrashInv(c, s)
  {
    hide CrashInv, Init, StepOrCrash;
    forall s | CrashReachable(c, s) ensures CrashInv(c, s) {
      var run :| IsCrashRun(c, run) && run[|run| - 1] == s;
      CrashRunInv(c, run);
    }
  }

  /** The value of the semaphore survives crashes. */
  lemma CrashedHolderBound(c: Config, s: State)
    requires CrashReachable(c, s) && c.n < WORKER_TYPE
    ensures |Holders(s)| + s.sem == c.limit
  {
    CrashReachableInv(c);
  }

  // ---------------------------------------------------------------- when crashes leave the bound alone

  /** There are never more messages in flight than clients, and than fit into the queue and the worker. */
  lemma CrashedFlightBound(c: Config, s: State)
    requires CrashReachable(c, s) && c.n < WORKER_TYPE && s.parent.Reaping?
    ensures InFlight(s) <= Min(c.n, c.cap + 1) && (Silent(c) ==> InFlight(s) == 0)
  {
    CrashReachableInv(c);
    var below := SlotsBelow(c.n);
    var flight := if s.worker.Sending? then s.queue + [s.worker.msg] else s.queue;
    if s.worker.Sending? { DistinctAppend(s.queue, s.worker.msg); }
    forall m | m in flight ensures Owner(m) > 0 && Owner(m) - 1 in below { assert Owned(s, m); }
    OwnersCard(flight, below);
  }

  /** k clients have each sent a request and crashed; the worker has taken the first one. */
  function Abandoned(c: Config, k: nat): State
    requires k <= c.n
  {
    State(c.limit,
          seq(if k == 0 then 0 else k - 1, q requires 0 <= q => Request(q + 1, 0)),
          seq(c.n, i => if i < k then Exited else Idle(0)),
          if k == 0 then Receiving else Sending(Answer(Request(0, 0))),
          Reaping({}),
          seq(c.n, i => []))
  }

  lemma CrashExtend(c: Config, s: State, s': State)
    requires CrashReachable(c, s) && StepOrCrash(c, s, s')
    ensures CrashReachable(c, s')
  {
    hide StepOrCrash, Init;
    var run :| IsCrashRun(c, run) && run[|run| - 1] == s;
    var longer := run + [s'];
    forall k | 0 <= k < |longer| - 1 ensures StepOrCrash(c, longer[k], longer[k + 1]) {
      assert k < |run| - 1 ==> StepOrCrash(c, run[k], run[k + 1]);
    }
    assert IsCrashRun(c, longer);
  }

  /** Client k takes the unit that the crash before has given back, sends, and crashes as well. */
  lemma AbandonNext(c: Config, s: State, k: nat) returns (t: State)
    requires CrashReachable(c, s) && |s.clients| == |s.received| == c.n && k < c.n && c.r > 0 && s.clients[k] == Idle(0)
    requires s.sem > 0 && |s.queue| < c.cap
    ensures CrashReachable(c, t)
    ensures t == s.(queue := s.queue + [Request(k, 0)], clients := s.clients[k := Exited])
  {
    hide CrashReachable;
    var s1 := s.(sem := s.sem - 1, clients := s.clients[k := Holding(0)]);
    assert ClientStep(c, s, s1, k);
    CrashExtend(c, s, s1);
    var s2 := s1.(queue := s1.queue + [Request(k, 0)], clients := s1.clients[k := Sent(0)]);
    assert ClientStep(c, s1, s2, k);
    CrashExtend(c, s1, s2);
    t := s2.(sem := s2.sem + 1, clients := s2.clients[k := Exited]);
    assert Crash(s2, t, k);
    CrashExtend(c, s2, t);
  }

  lemma {:induction false} AbandonedReachable(c: Config, k: nat)
    requires c.r > 0 && c.limit > 0 && c.cap > 0 && k <= Min(c.n, c.cap + 1)
    ensures CrashReachable(c, Abandoned(c, k))
  {
    hide CrashReachable;
    if k == 0 {
      StartReachable(c, Abandoned(c, 0));
    } else {
      AbandonedReachable(c, k - 1);
      var t := AbandonNext(c, Abandoned(c, k - 1), k - 1);
      if k == 1 {
        t := WorkerTakesFirst(c, t);
      }
      assert t.queue == Abandoned(c, k).queue;
      assert t.clients == Abandoned(c, k).clients;
    }
  }

  lemma StartReachable(c: Config, s: State)
    requires Init(c, s)
    ensures CrashReachable(c, s)
  {
    assert IsCrashRun(c, [s]);
  }

  lemma WorkerTakesFirst(c: Config, s: State) returns (t: State)
    requires CrashReachable(c, s) && s.worker == Receiving && s.queue == [Request(0, 0)]
    ensures CrashReachable(c, t) && t == s.(queue := [], worker := Sending(Answer(Request(0, 0))))
  {
    hide CrashReachable;
    t := s.(queue := [], worker := Sending(Answer(Request(0, 0))));
    assert FirstOf(s.queue, WORKER_TYPE, 0) && Without(s.queue, 0) == [];
    assert Take(c, s, t, 0);
    CrashExtend(c, s, t);
  }

  /** Although clients may crash, the messages in flight stay within the limit of the semaphore if and only if there is
      no room for more of them, or nothing is ever sent. */
  lemma CrashBoundIff(c: Config)
    requires c.n < WORKER_TYPE
    ensures (forall s :: CrashReachable(c, s) && s.parent.Reaping? ==> InFlight(s) <= c.limit)
      <==> Silent(c) || c.limit >= Min(c.n, c.cap + 1)
  {
    hide CrashReachable;
    if Silent(c) || c.limit >= Min(c.n, c.cap + 1) {
      forall s | CrashReachable(c, s) && s.parent.Reaping? ensures InFlight(s) <= c.limit { CrashedFlightBound(c, s); }
    } else {
      var k := Min(c.n, c.cap + 1);
      AbandonedReachable(c, k);
      assert InFlight(Abandoned(c, k)) == k;
    }
  }
}
