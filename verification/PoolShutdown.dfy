/** What a shutdown of the thread pool brings about, whatever the interleaving. */
module PoolShutdown {
  import opened Wrappers
  import opened ThreadPool

  // ---- A shutdown ends ---------------------------------------------------------------------------------

  /** The steps a worker takes at most, once there is a shutdown, if it gets no further runnable. */
  function Rank(w: Worker): nat {
    match w
    case Waiting => 11
    case Woken => 10
    case Checking => 9
    case Entering => 8
    case Polling => 7
    case Holding(_) => 9
    case Running(_) => 8
    case Deciding(_) => 6
    case Choosing => 5
    case Stealing(_) => 4
    case Leaving => 3
    case Finishing => 2
    case Closing => 2
    case Exiting => 1
    case Dead => 0
  }

  function Ranks(ws: seq<Worker>): (n: nat)
    ensures n <= 11 * |ws|
  {
    if ws == [] then 0 else Rank(ws[0]) + Ranks(ws[1..])
  }

  function Queued(qs: seq<QueueState>): nat {
    if qs == [] then 0 else |qs[0].items| + Queued(qs[1..])
  }

  /** A bound on the steps that all workers together still take. */
  function Weight(s: Pool): nat {
    5 * (Queued(s.queues) + |s.clients|) + Ranks(s.workers)
  }

  predicate WorkerStep(a: Action) {
    !a.Submit? && !a.AddTo? && !a.Shutdown? && !a.SignalQueue? && !a.CountDead?
  }

  function WorkerSteps(run: seq<Action>): nat {
    if run == [] then 0 else (if WorkerStep(run[0]) then 1 else 0) + WorkerSteps(run[1..])
  }

  lemma {:induction false} RanksUpdate(ws: seq<Worker>, i: nat, w: Worker)
    requires i < |ws|
    ensures Ranks(ws[i := w]) + Rank(ws[i]) == Ranks(ws) + Rank(w)
    decreases |ws|
  {
    hide Rank;
    if i > 0 {
      assert ws[i := w][1..] == ws[1..][i - 1 := w];
      RanksUpdate(ws[1..], i - 1, w);
    }
  }

  lemma {:induction false} QueuedUpdate(qs: seq<QueueState>, i: nat, q: QueueState)
    requires i < |qs|
    ensures Queued(qs[i := q]) + |qs[i].items| == Queued(qs) + |q.items|
    decreases |qs|
  {
    if i > 0 {
      assert qs[i := q][1..] == qs[1..][i - 1 := q];
      QueuedUpdate(qs[1..], i - 1, q);
    }
  }

  /** A step of worker `w` that only moves it. */
  lemma Moves(s: Pool, w: nat, next: Worker, s': Pool)
    requires w < |s.workers| && s'.workers == s.workers[w := next] && s'.queues == s.queues && s'.clients == s.clients
    ensures Weight(s') + Rank(s.workers[w]) == Weight(s) + Rank(next)
  {
    RanksUpdate(s.workers, w, next);
  }

  /** A step of worker `w` that also changes queue `q`. */
  lemma MovesAndTakes(s: Pool, w: nat, next: Worker, q: nat, after: QueueState, s': Pool)
    requires w < |s.workers| && q < |s.queues| && s'.clients == s.clients
    requires s'.workers == s.workers[w := next] && s'.queues == s.queues[q := after]
    ensures Weight(s') + Rank(s.workers[w]) + 5 * |s.queues[q].items| == Weight(s) + Rank(next) + 5 * |after.items|
  {
    RanksUpdate(s.workers, w, next);
    QueuedUpdate(s.queues, q, after);
  }

  function Actor(a: Action): nat
    requires WorkerStep(a)
  {
    a.w
  }

  predicate TouchesQueue(a: Action) {
    a.ResetEvent? || a.CloseQueue? || a.PollOwn? || a.Steal?
  }

  lemma MovingWeighs(s: Pool, a: Action)
    requires Enabled(s, a) && s.shutdownMode != 0 && WorkerStep(a) && !TouchesQueue(a)
    ensures Weight(Next(s, a)) < Weight(s)
  {
    var w, s' := Actor(a), Next(s, a);
    assert Rank(s'.workers[w]) < Rank(s.workers[w]);
    Moves(s, w, s'.workers[w], s');
    hide Next, Enabled, Rank, Weight;
  }

  lemma TakingWeighs(s: Pool, a: Action)
    requires Enabled(s, a) && WorkerStep(a) && TouchesQueue(a)
    ensures Weight(Next(s, a)) < Weight(s)
  {
    var w, s' := Actor(a), Next(s, a);
    var q := if a.Steal? then s.workers[w].victim else w;
    assert s'.queues == s.queues[q := s'.queues[q]] && s'.workers == s.workers[w := s'.workers[w]];
    assert Rank(s'.workers[w]) + 5 * |s'.queues[q].items| < Rank(s.workers[w]) + 5 * |s.queues[q].items|;
    MovesAndTakes(s, w, s'.workers[w], q, s'.queues[q], s');
    hide Next, Enabled, Rank, Weight;
  }

  /** Once there is a shutdown, every step of a worker takes off weight, and no other step adds any. */
  lemma StepWeighs(s: Pool, a: Action)
    requires Enabled(s, a) && s.shutdownMode != 0
    ensures Next(s, a).shutdownMode != 0
    ensures Weight(Next(s, a)) + (if WorkerStep(a) then 1 else 0) <= Weight(s)
  {
    StaysShut(s, a);
    if WorkerStep(a) {
      hide Next, Enabled, Weight, WorkerStep;
      if TouchesQueue(a) {
        TakingWeighs(s, a);
      } else {
        MovingWeighs(s, a);
      }
    } else {
      OthersWeigh(s, a);
    }
  }

  lemma StaysShut(s: Pool, a: Action)
    requires Enabled(s, a) && s.shutdownMode != 0
    ensures Next(s, a).shutdownMode != 0
  {
  }

  lemma OthersWeigh(s: Pool, a: Action)
    requires Enabled(s, a) && s.shutdownMode != 0 && !WorkerStep(a)
    ensures Weight(Next(s, a)) <= Weight(s)
  {
    hide Weight;
    if a.AddTo? {
      AddWeighs(s, a.client, a.q);
    } else if a.SignalQueue? {
      SignalWeighs(s, a.q);
    } else {
      SameWeight(s, Next(s, a));
    }
  }

  lemma SameWeight(s: Pool, s': Pool)
    requires s'.workers == s.workers && s'.queues == s.queues && s'.clients == s.clients
    ensures Weight(s') == Weight(s)
  {
  }

  lemma AddWeighs(s: Pool, c: nat, q: nat)
    requires Enabled(s, AddTo(c, q))
    ensures Weight(Next(s, AddTo(c, q))) <= Weight(s)
  {
    var s' := Next(s, AddTo(c, q));
    QueuedUpdate(s.queues, q, s'.queues[q]);
    ClientGone(s.clients, c);
    hide Queued, Ranks;
  }

  lemma ClientGone(m: map<nat, Client>, c: nat)
    requires c in m
    ensures |m - {c}| + 1 == |m|
  {
    assert (m - {c}).Keys == m.Keys - {c};
    assert |m - {c}| == |(m - {c}).Keys| && |m| == |m.Keys|;
  }

  lemma SignalWeighs(s: Pool, q: nat)
    requires Enabled(s, SignalQueue(q))
    ensures Weight(Next(s, SignalQueue(q))) == Weight(s)
  {
    QueuedUpdate(s.queues, q, s.queues[q].(signaled := true));
    hide Queued, Ranks;
  }

  /** Every shutdown ends: whatever the clients do and whoever is first, from then on the workers together
      take at most five steps for each runnable in a queue or with a client and eleven for each worker. */
  lemma ShutdownEnds(s: Pool, mode: nat, run: seq<Action>)
    requires PoolOK(s) && (mode == 1 || mode == 2) && RunFrom(Next(s, Shutdown(mode)), run).Some?
    ensures WorkerSteps(run) <= 5 * (Queued(s.queues) + |s.clients|) + 11 * |s.workers|
  {
    WeightBounds(Next(s, Shutdown(mode)), run);
  }

  lemma {:induction false} WeightBounds(s: Pool, run: seq<Action>)
    requires s.shutdownMode != 0 && RunFrom(s, run).Some?
    ensures WorkerSteps(run) + Weight(RunFrom(s, run).value) <= Weight(s)
    decreases |run|
  {
    hide Next, Enabled, Weight, WorkerStep;
    if run != [] {
      StepWeighs(s, run[0]);
      WeightBounds(Next(s, run[0]), run[1..]);
    }
  }

  /** Victims are workers of the pool. */
  predicate VictimsOK(s: Pool) {
    PoolOK(s) && forall w :: 0 <= w < |s.workers| && s.workers[w].Stealing? ==> s.workers[w].victim < |s.queues|
  }

  lemma VictimsStay(s: Pool, a: Action)
    requires VictimsOK(s) && Enabled(s, a)
    ensures VictimsOK(Next(s, a))
  {
    if WorkerStep(a) {
      WorkerVictims(s, a);
    }
  }

  lemma WorkerVictims(s: Pool, a: Action)
    requires VictimsOK(s) && Enabled(s, a) && WorkerStep(a)
    ensures VictimsOK(Next(s, a))
  {
    var s', w := Next(s, a), Actor(a);
    assert s'.workers == s.workers[w := s'.workers[w]] && |s'.queues| == |s.queues|;
    assert s'.workers[w].Stealing? ==> a.Choose? && s'.workers[w].victim == a.victim;
    hide Next;
  }

  function OwnStep(s: Pool, w: nat): Action
    requires w < |s.workers| && !s.workers[w].Dead?
  {
    match s.workers[w]
    case Waiting => Wake(w)
    case Woken => ResetEvent(w)
    case Checking => CheckNow(w)
    case Closing => CloseQueue(w)
    case Entering => Enter(w)
    case Polling => PollOwn(w)
    case Holding(_) => CheckHeld(w)
    case Deciding(_) => Decide(w)
    case Choosing => Choose(w, 0)
    case Stealing(_) => Steal(w)
    case Running(_) => Finish(w)
    case Leaving => Leave(w)
    case Finishing => CheckEnd(w)
    case Exiting => CountDone(w)
  }

  predicate StepsBy(s: Pool, a: Action, w: nat) {
    Enabled(s, a) && WorkerStep(a) && a.w == w
  }

  /** A worker can always take a step of its own unless it is dead or waits for an event that is not set. */
  lemma WorkerCanMove(s: Pool, w: nat)
    requires VictimsOK(s) && w < |s.workers|
    ensures (exists a :: StepsBy(s, a, w)) <==>
            !s.workers[w].Dead? && !(s.workers[w].Waiting? && !s.queues[w].signaled)
  {
    if !s.workers[w].Dead? && !(s.workers[w].Waiting? && !s.queues[w].signaled) {
      assert StepsBy(s, OwnStep(s, w), w);
    }
  }

  // ---- An immediate shutdown -------------------------------------------------------------------------

  /** Whether the worker may still run something after an immediate shutdown. */
  function MayRun(w: Worker): nat {
    if w.Choosing? || w.Stealing? || w.Running? then 1 else 0
  }

  function MayRuns(ws: seq<Worker>): (n: nat)
    ensures n <= |ws|
  {
    if ws == [] then 0 else MayRun(ws[0]) + MayRuns(ws[1..])
  }

  lemma {:induction false} MayRunsUpdate(ws: seq<Worker>, i: nat, w: Worker)
    requires i < |ws|
    ensures MayRuns(ws[i := w]) + MayRun(ws[i]) == MayRuns(ws) + MayRun(w)
    decreases |ws|
  {
    hide MayRun;
    if i > 0 {
      assert ws[i := w][1..] == ws[1..][i - 1 := w];
      MayRunsUpdate(ws[1..], i - 1, w);
    }
  }

  lemma StaysImmediate(s: Pool, a: Action)
    requires Enabled(s, a) && s.shutdownMode == 2 && a != Shutdown(1)
    ensures Next(s, a).shutdownMode == 2
  {
  }

  lemma OwnStepRuns(s: Pool, a: Action)
    requires Enabled(s, a) && s.shutdownMode == 2 && WorkerStep(a)
    ensures var s', w := Next(s, a), Actor(a);
            && w < |s.workers| && s'.workers == s.workers[w := s'.workers[w]]
            && |s'.executed| + MayRun(s'.workers[w]) <= |s.executed| + MayRun(s.workers[w])
  {
  }

  lemma OthersRunNothing(s: Pool, a: Action)
    requires Enabled(s, a) && !WorkerStep(a)
    ensures Next(s, a).workers == s.workers && Next(s, a).executed == s.executed
  {
  }

  lemma StepRuns(s: Pool, a: Action)
    requires Enabled(s, a) && s.shutdownMode == 2
    ensures var s' := Next(s, a);
            |s'.executed| + MayRuns(s'.workers) <= |s.executed| + MayRuns(s.workers)
  {
    hide Next, Enabled, MayRun, WorkerStep;
    if WorkerStep(a) {
      OwnStepRuns(s, a);
      MayRunsUpdate(s.workers, Actor(a), Next(s, a).workers[Actor(a)]);
    } else {
      OthersRunNothing(s, a);
    }
  }

  /** After an immediate shutdown each worker runs at most one more runnable, and only if it was past its
      last look at the shutdown. */
  lemma AtMostOneMore(s: Pool, run: seq<Action>)
    requires PoolOK(s) && Shutdown(1) !in run && RunFrom(Next(s, Shutdown(2)), run).Some?
    ensures |RunFrom(Next(s, Shutdown(2)), run).value.executed| <= |s.executed| + MayRuns(s.workers)
    ensures MayRuns(s.workers) <= |s.workers|
  {
    RunsBound(Next(s, Shutdown(2)), run);
  }

  lemma {:induction false} RunsBound(s: Pool, run: seq<Action>)
    requires s.shutdownMode == 2 && Shutdown(1) !in run && RunFrom(s, run).Some?
    ensures var t := RunFrom(s, run).value;
            && t.shutdownMode == 2
            && |t.executed| + MayRuns(t.workers) <= |s.executed| + MayRuns(s.workers)
    decreases |run|
  {
    hide Next, Enabled, MayRuns;
    if run != [] {
      StaysImmediate(s, run[0]);
      StepRuns(s, run[0]);
      RunsBound(Next(s, run[0]), run[1..]);
    }
  }

  /** The worker has yet to wake up or to close its queue, or has closed it. */
  predicate WillClose(s: Pool, w: nat) {
    && PoolOK(s) && w < |s.workers|
    && match s.workers[w]
       case Waiting => true
       case Woken => true
       case Checking => true
       case Closing => true
       case Exiting => !s.queues[w].canAdd && s.queues[w].items == []
       case Dead => !s.queues[w].canAdd && s.queues[w].items == []
       case _ => false
  }

  lemma StepWillClose(s: Pool, a: Action, w: nat)
    requires Enabled(s, a) && s.shutdownMode == 2 && WillClose(s, w)
    ensures WillClose(Next(s, a), w)
  {
  }

  /** A worker that waits at an immediate shutdown runs nothing more: once it is dead its queue is closed,
      and what was in it has been discarded. */
  lemma IdleWorkersClose(s: Pool, run: seq<Action>, w: nat)
    requires PoolOK(s) && Shutdown(1) !in run && RunFrom(Next(s, Shutdown(2)), run).Some?
    requires w < |s.workers| && (s.workers[w].Waiting? || s.workers[w].Woken? || s.workers[w].Checking?)
    ensures WillClose(RunFrom(Next(s, Shutdown(2)), run).value, w)
  {
    KeepsClosing(Next(s, Shutdown(2)), run, w);
  }

  lemma {:induction false} KeepsClosing(s: Pool, run: seq<Action>, w: nat)
    requires s.shutdownMode == 2 && Shutdown(1) !in run && RunFrom(s, run).Some? && WillClose(s, w)
    ensures WillClose(RunFrom(s, run).value, w)
    decreases |run|
  {
    hide Next, Enabled, WillClose;
    if run != [] {
      StaysImmediate(s, run[0]);
      StepWillClose(s, run[0], w);
      KeepsClosing(Next(s, run[0]), run[1..], w);
    }
  }

  // ---- Late acceptances --------------------------------------------------------------------------------

  lemma StepAccepts(s: Pool, a: Action)
    requires Enabled(s, a) && s.shutdownMode != 0
    ensures var s' := Next(s, a);
            s'.shutdownMode != 0 && |s'.accepted| + |s'.clients| <= |s.accepted| + |s.clients|
  {
    if a.AddTo? {
      ClientGone(s.clients, a.client);
    }
  }

  /** After a shutdown only clients already past the test for it have something accepted, one each. */
  lemma {:induction false} LateAcceptances(s: Pool, run: seq<Action>)
    requires s.shutdownMode != 0 && RunFrom(s, run).Some?
    ensures var t := RunFrom(s, run).value; |t.accepted| + |t.clients| <= |s.accepted| + |s.clients|
    decreases |run|
  {
    hide Next, Enabled;
    if run != [] {
      StepAccepts(s, run[0]);
      LateAcceptances(Next(s, run[0]), run[1..]);
    }
  }
}
