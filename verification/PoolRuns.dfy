/** Runs of the thread pool that end where one would not expect: a stall, and two runnables that a
    shutdown loses. */
module PoolRuns {
  import opened Wrappers
  import opened ThreadPool

  /** What the program weighs a queue with. */
  function Cost(s: Pool, q: nat): nat
    requires PoolOK(s) && q < |s.queues|
  {
    |s.queues[q].items| + if s.busy[q] then 1 else 0
  }

  /** The first queue of least cost among the first `n`. */
  function MostAvailable(s: Pool, n: nat): (q: nat)
    requires PoolOK(s) && 0 < n <= |s.queues|
    ensures q < n
  {
    if n == 1 then 0
    else
      var q := MostAvailable(s, n - 1);
      if Cost(s, n - 1) < Cost(s, q) then n - 1 else q
  }

  /** The last queue of greatest cost from queue `n` on. */
  function LeastAvailable(s: Pool, n: nat): (q: nat)
    requires PoolOK(s) && n < |s.queues|
    ensures n <= q < |s.queues|
    decreases |s.queues| - n
  {
    if n == |s.queues| - 1 then n
    else
      var q := LeastAvailable(s, n + 1);
      if Cost(s, n) > Cost(s, q) then n else q
  }

  /** Queues and victims are chosen by cost, as if the costs were read at once. */
  predicate ByCost(s: Pool, a: Action)
    requires Enabled(s, a)
  {
    match a
    case AddTo(_, q) => q == MostAvailable(s, |s.queues|)
    case Choose(_, v) => v == LeastAvailable(s, 0)
    case _ => true
  }

  /** The run is possible, chooses by cost and ends in `t`. */
  ghost predicate Reaches(s: Pool, run: seq<Action>, t: Pool)
    decreases |run|
  {
    if run == [] then s == t
    else Enabled(s, run[0]) && ByCost(s, run[0]) && Reaches(Next(s, run[0]), run[1..], t)
  }

  lemma {:induction false} ReachesIsRun(s: Pool, run: seq<Action>, t: Pool)
    requires Reaches(s, run, t)
    ensures RunFrom(s, run) == Some(t)
    decreases |run|
  {
    if run != [] {
      ReachesIsRun(Next(s, run[0]), run[1..], t);
    }
  }

  lemma {:induction false} ReachesOn(s: Pool, run: seq<Action>, t: Pool, more: seq<Action>, u: Pool)
    requires Reaches(s, run, t) && Reaches(t, more, u)
    ensures Reaches(s, run + more, u)
    decreases |run|
  {
    hide Next, ByCost, Enabled;
    if run == [] {
      assert run + more == more;
    } else {
      assert (run + more)[1..] == run[1..] + more;
      ReachesOn(Next(s, run[0]), run[1..], t, more, u);
    }
  }

  lemma ReachesOne(s: Pool, a: Action)
    requires Enabled(s, a) && ByCost(s, a)
    ensures Reaches(s, [a], Next(s, a))
  {
  }

  /** Two idle workers, with what has been submitted to each. */
  function Fresh(q0: seq<Ticket>, q1: seq<Ticket>, next: Ticket, accepted: seq<Ticket>): (s: Pool)
    ensures PoolOK(s)
  {
    Pool(10, 0, [QueueState(q0, true, q0 != []), QueueState(q1, true, q1 != [])], [Waiting, Waiting], [false, false],
         map[], next, 0, false, [q0, q1], [[], []], accepted, [], [])
  }

  /** ... and after three submissions, with what was taken from each queue and executed. */
  function Pair(q0: seq<Ticket>, signaled0: bool, q1: seq<Ticket>, signaled1: bool, w: Worker, busy: bool,
                taken: seq<seq<Ticket>>, ran: seq<Ticket>): (s: Pool)
    requires |taken| == 2
    ensures PoolOK(s)
  {
    Pool(10, 0, [QueueState(q0, true, signaled0), QueueState(q1, true, signaled1)], [Waiting, w], [false, busy],
         map[], 3, 0, false, [[0, 2], [1]], taken, [0, 1, 2], ran, [])
  }

  const SUBMISSIONS := [Submit(0), AddTo(0, 0), Submit(0), AddTo(0, 1), Submit(0), AddTo(0, 0)]
  const OWN_WORK := [Wake(1), ResetEvent(1), CheckNow(1), Enter(1), PollOwn(1), CheckHeld(1), Finish(1)]
  const THEFT := [PollOwn(1), Decide(1), Choose(1, 0), Steal(1), Finish(1)]
  const GIVING_UP := [PollOwn(1), Decide(1), Choose(1, 1), Steal(1), Leave(1), CheckEnd(1)]

  function Submitted(s: Pool, q: nat): Pool
    requires PoolOK(s) && q < |s.queues|
  {
    var r := s.nextTicket;
    s.(nextTicket := r + 1,
       queues := s.queues[q := QueueState(s.queues[q].items + [r], true, true)],
       added := s.added[q := s.added[q] + [r]],
       accepted := s.accepted + [r])
  }

  lemma SubmissionReaches(s: Pool, q: nat)
    requires PoolOK(s) && s.shutdownMode == 0 && s.clients == map[]
    requires 0 < |s.queues| && q == MostAvailable(s, |s.queues|)
    requires s.queues[q].canAdd && |s.queues[q].items| < s.maxItems
    ensures Reaches(s, [Submit(0), AddTo(0, q)], Submitted(s, q))
  {
    hide MostAvailable;
    var s1 := Next(s, Submit(0));
    assert s1.clients - {0} == map[];
    SameCosts(s, s1, |s.queues|);
    assert [Submit(0), AddTo(0, q)][1..] == [AddTo(0, q)];
    assert Next(s1, AddTo(0, q)) == Submitted(s, q);
    ReachesOne(s1, AddTo(0, q));
  }

  lemma SameCosts(s: Pool, s': Pool, n: nat)
    requires PoolOK(s) && PoolOK(s') && s'.queues == s.queues && s'.busy == s.busy && 0 < n <= |s.queues|
    ensures MostAvailable(s', n) == MostAvailable(s, n)
  {
  }

  lemma ThreeSubmissions()
    ensures Reaches(Start(2, 10), SUBMISSIONS, Pair([0, 2], true, [1], true, Waiting, false, [[], []], []))
  {
    hide Reaches;
    var s, p0, p1, p2 := Start(2, 10), Fresh([], [], 0, []), Fresh([0], [], 1, [0]), Fresh([0], [1], 2, [0, 1]);
    assert s == p0 by {
      assert s.queues == p0.queues && s.workers == p0.workers && s.busy == p0.busy;
      assert s.added == p0.added && s.removed == p0.removed;
    }
    SubmissionReaches(p0, 0);
    SubmissionReaches(p1, 1);
    SubmissionReaches(p2, 0);
    assert Submitted(p0, 0) == p1 by { assert Submitted(p0, 0).queues[0].items == [0] == Submitted(p0, 0).added[0]; }
    assert Submitted(p1, 1) == p2 by { assert Submitted(p1, 1).queues[1].items == [1] == Submitted(p1, 1).added[1]; }
    var p3 := Pair([0, 2], true, [1], true, Waiting, false, [[], []], []);
    assert Submitted(p2, 0) == p3 by {
      assert Submitted(p2, 0).queues[0].items == [0, 2] == Submitted(p2, 0).added[0];
    }
    ReachesOn(p0, [Submit(0), AddTo(0, 0)], p1, [Submit(0), AddTo(0, 1)], p2);
    ReachesOn(p0, [Submit(0), AddTo(0, 0)] + [Submit(0), AddTo(0, 1)], p2, [Submit(0), AddTo(0, 0)], p3);
    assert SUBMISSIONS == [Submit(0), AddTo(0, 0)] + [Submit(0), AddTo(0, 1)] + [Submit(0), AddTo(0, 0)];
  }

  /** A step of the second worker. */
  ghost predicate StepsTo(s: Pool, a: Action, t: Pool) {
    Enabled(s, a) && ByCost(s, a) && Next(s, a) == t
  }

  lemma {:induction false} ReachesThrough(states: seq<Pool>, run: seq<Action>)
    requires |states| == |run| + 1 && forall i :: 0 <= i < |run| ==> StepsTo(states[i], run[i], states[i + 1])
    ensures Reaches(states[0], run, states[|run|])
    decreases |run|
  {
    if run != [] {
      assert StepsTo(states[0], run[0], states[1]);
      ReachesThrough(states[1..], run[1..]);
    }
  }

  lemma TakesLast(q: QueueState)
    requires |q.items| == 1
    ensures Polled(q) == QueueState([], q.canAdd, false) && AsSeq(Front(q)) == q.items && [] + q.items == q.items
  {
  }

  function OwnWorkStates(): (states: seq<Pool>)
    ensures |states| == |OWN_WORK| + 1
  {
    var none, one := [[], []], [[], [1]];
    [
      Pair([0, 2], true, [1], true, Waiting, false, none, []),
      Pair([0, 2], true, [1], true, Woken, false, none, []),
      Pair([0, 2], true, [1], false, Checking, false, none, []),
      Pair([0, 2], true, [1], false, Entering, false, none, []),
      Pair([0, 2], true, [1], false, Polling, true, none, []),
      Pair([0, 2], true, [], false, Holding(1), true, one, []),
      Pair([0, 2], true, [], false, Running(1), true, one, []),
      Pair([0, 2], true, [], false, Polling, true, one, [1])]
  }

  lemma OwnWorkStep(i: nat)
    requires i < |OWN_WORK|
    ensures StepsTo(OwnWorkStates()[i], OWN_WORK[i], OwnWorkStates()[i + 1])
  {
    if i == 0 {
    } else if i == 1 {
    } else if i == 2 {
    } else if i == 3 {
    } else if i == 4 {
      TakesLast(QueueState([1], true, false));
    } else if i == 5 {
    } else {
    }
  }

  /** It wakes, runs its own runnable and is back at its queue. */
  lemma OwnWorkDone()
    ensures Reaches(Pair([0, 2], true, [1], true, Waiting, false, [[], []], []), OWN_WORK,
                    Pair([0, 2], true, [], false, Polling, true, [[], [1]], [1]))
  {
    hide Reaches, StepsTo;
    forall i | 0 <= i < |OWN_WORK| ensures StepsTo(OwnWorkStates()[i], OWN_WORK[i], OwnWorkStates()[i + 1]) {
      OwnWorkStep(i);
    }
    ReachesThrough(OwnWorkStates(), OWN_WORK);
  }

  function TheftStates(): (states: seq<Pool>)
    ensures |states| == |THEFT| + 1
  {
    var one, two := [[], [1]], [[0], [1]];
    [
      Pair([0, 2], true, [], false, Polling, true, one, [1]),
      Pair([0, 2], true, [], false, Deciding(None), true, one, [1]),
      Pair([0, 2], true, [], false, Choosing, true, one, [1]),
      Pair([0, 2], true, [], false, Stealing(0), true, one, [1]),
      Pair([2], false, [], false, Running(0), true, two, [1]),
      Pair([2], false, [], false, Polling, true, two, [1, 0])]
  }

  lemma TheftStep(i: nat)
    requires i < |THEFT|
    ensures StepsTo(TheftStates()[i], THEFT[i], TheftStates()[i + 1])
  {
    if i == 0 {
      assert [1] + [] == [1];
    } else if i == 1 {
    } else if i == 2 {
    } else if i == 3 {
      assert [0, 2][1..] == [2] && [] + [0] == [0];
    } else {
      assert [1] + [0] == [1, 0];
    }
  }

  /** It steals from the first queue, which still holds a runnable but has lost its event. */
  lemma TheftDone()
    ensures Reaches(Pair([0, 2], true, [], false, Polling, true, [[], [1]], [1]), THEFT,
                    Pair([2], false, [], false, Polling, true, [[0], [1]], [1, 0]))
  {
    hide Reaches, StepsTo;
    forall i | 0 <= i < |THEFT| ensures StepsTo(TheftStates()[i], THEFT[i], TheftStates()[i + 1]) {
      TheftStep(i);
    }
    ReachesThrough(TheftStates(), THEFT);
  }

  function GivingUpStates(): (states: seq<Pool>)
    ensures |states| == |GIVING_UP| + 1
  {
    var two := [[0], [1]];
    [
      Pair([2], false, [], false, Polling, true, two, [1, 0]),
      Pair([2], false, [], false, Deciding(None), true, two, [1, 0]),
      Pair([2], false, [], false, Choosing, true, two, [1, 0]),
      Pair([2], false, [], false, Stealing(1), true, two, [1, 0]),
      Pair([2], false, [], false, Leaving, true, two, [1, 0]),
      Pair([2], false, [], false, Finishing, false, two, [1, 0]),
      Pair([2], false, [], false, Waiting, false, two, [1, 0])]
  }

  lemma GivingUpStep(i: nat)
    requires i < |GIVING_UP|
    ensures StepsTo(GivingUpStates()[i], GIVING_UP[i], GivingUpStates()[i + 1])
  {
    if i == 0 {
      assert [1] + [] == [1];
    } else if i == 1 {
    } else if i == 2 {
    } else if i == 3 {
      assert [1] + [] == [1];
    } else if i == 4 {
    } else {
    }
  }

  /** It looks into its own queue, which is empty, and goes to wait. */
  lemma GivenUp()
    ensures Reaches(Pair([2], false, [], false, Polling, true, [[0], [1]], [1, 0]), GIVING_UP,
                    Pair([2], false, [], false, Waiting, false, [[0], [1]], [1, 0]))
  {
    hide Reaches, StepsTo;
    forall i | 0 <= i < |GIVING_UP| ensures StepsTo(GivingUpStates()[i], GIVING_UP[i], GivingUpStates()[i + 1]) {
      GivingUpStep(i);
    }
    ReachesThrough(GivingUpStates(), GIVING_UP);
  }

  const STALLING_RUN := SUBMISSIONS + OWN_WORK + THEFT + GIVING_UP

  /** A pool of two workers can stall: from the start, with queues chosen by cost and no shutdown, three
      submissions end with one of them queued, every worker waiting and no event set. */
  lemma PoolCanStall() returns (s: Pool)
    ensures RunFrom(Start(2, 10), STALLING_RUN) == Some(s) && Stalled(s) && s.shutdownMode == 0 && s.clients == map[]
    ensures s.workers == [Waiting, Waiting] && |s.queues| == 2 && s.queues[0].items == [2]
  {
    hide Reaches, RunFrom;
    ThreeSubmissions();
    OwnWorkDone();
    TheftDone();
    GivenUp();
    var p0, p1 := Start(2, 10), Pair([0, 2], true, [1], true, Waiting, false, [[], []], []);
    var p2, p3 := Pair([0, 2], true, [], false, Polling, true, [[], [1]], [1]),
                  Pair([2], false, [], false, Polling, true, [[0], [1]], [1, 0]);
    var p4 := Pair([2], false, [], false, Waiting, false, [[0], [1]], [1, 0]);
    ReachesOn(p0, SUBMISSIONS, p1, OWN_WORK, p2);
    ReachesOn(p0, SUBMISSIONS + OWN_WORK, p2, THEFT, p3);
    ReachesOn(p0, SUBMISSIONS + OWN_WORK + THEFT, p3, GIVING_UP, p4);
    ReachesIsRun(p0, STALLING_RUN, p4);
    s := p4;
  }

  /** A pool of one worker and one client, after a shutdown. */
  function Alone(items: seq<Ticket>, signaled: bool, w: Worker, busy: bool, clients: map<nat, Client>, done: nat)
    : (s: Pool)
    ensures PoolOK(s)
  {
    Pool(10, 1, [QueueState(items, true, signaled)], [w], [busy], clients, 1, done, done >= 1, [items], [[]], items,
         [], [])
  }

  const CLIENT_STARTS := [Submit(0), Shutdown(1)]
  const WORKER_ENDS := [
    SignalQueue(0), Wake(0), ResetEvent(0), CheckNow(0), Enter(0), PollOwn(0), Decide(0), Choose(0, 0), Steal(0),
    Leave(0), CheckEnd(0), CountDone(0)]
  const LATE_RUN := CLIENT_STARTS + WORKER_ENDS + [AddTo(0, 0)]

  function WorkerEndsStates(): (states: seq<Pool>)
    ensures |states| == |WORKER_ENDS| + 1
  {
    var pending := map[0 := Client(0)];
    [
      Alone([], false, Waiting, false, pending, 0),
      Alone([], true, Waiting, false, pending, 0),
      Alone([], true, Woken, false, pending, 0),
      Alone([], false, Checking, false, pending, 0),
      Alone([], false, Entering, false, pending, 0),
      Alone([], false, Polling, true, pending, 0),
      Alone([], false, Deciding(None), true, pending, 0),
      Alone([], false, Choosing, true, pending, 0),
      Alone([], false, Stealing(0), true, pending, 0),
      Alone([], false, Leaving, true, pending, 0),
      Alone([], false, Finishing, false, pending, 0),
      Alone([], false, Exiting, false, pending, 0),
      Alone([], false, Dead, false, pending, 1)]
  }

  lemma WorkerWakes(i: nat)
    requires 0 <= i < 5
    ensures StepsTo(WorkerEndsStates()[i], WORKER_ENDS[i], WorkerEndsStates()[i + 1])
  {
    if i == 0 {
    } else if i == 1 {
    } else if i == 2 {
    } else if i == 3 {
    } else {
    }
  }

  lemma WorkerFindsNothing(i: nat)
    requires 5 <= i < 9
    ensures StepsTo(WorkerEndsStates()[i], WORKER_ENDS[i], WorkerEndsStates()[i + 1])
  {
    var none: seq<Ticket> := [];
    assert none + none == none;
    if i == 5 {
    } else if i == 6 {
    } else if i == 7 {
    } else {
    }
  }

  lemma WorkerExits(i: nat)
    requires 9 <= i < 12
    ensures StepsTo(WorkerEndsStates()[i], WORKER_ENDS[i], WorkerEndsStates()[i + 1])
  {
    var none: seq<Ticket> := [];
    assert none + none == none;
    if i == 9 {
    } else if i == 10 {
    } else {
    }
  }

  lemma WorkerEndsStep(i: nat)
    requires i < |WORKER_ENDS|
    ensures StepsTo(WorkerEndsStates()[i], WORKER_ENDS[i], WorkerEndsStates()[i + 1])
  {
    hide StepsTo, WorkerEndsStates;
    if i < 5 {
      WorkerWakes(i);
    } else if i < 9 {
      WorkerFindsNothing(i);
    } else {
      WorkerExits(i);
    }
  }

  lemma WorkerEnds()
    ensures Reaches(Alone([], false, Waiting, false, map[0 := Client(0)], 0), WORKER_ENDS,
                    Alone([], false, Dead, false, map[0 := Client(0)], 1))
  {
    hide Reaches, StepsTo;
    forall i | 0 <= i < |WORKER_ENDS|
      ensures StepsTo(WorkerEndsStates()[i], WORKER_ENDS[i], WorkerEndsStates()[i + 1])
    {
      WorkerEndsStep(i);
    }
    ReachesThrough(WorkerEndsStates(), WORKER_ENDS);
  }

  lemma ClientStarts()
    ensures Reaches(Start(1, 10), CLIENT_STARTS, Alone([], false, Waiting, false, map[0 := Client(0)], 0))
  {
    var s, t := Start(1, 10), Alone([], false, Waiting, false, map[0 := Client(0)], 0);
    assert s.queues == t.queues && s.workers == t.workers && s.busy == t.busy;
    assert s.added == t.added && s.removed == t.removed;
    assert Next(Next(s, Submit(0)), Shutdown(1)) == t;
    ReachesOne(Next(s, Submit(0)), Shutdown(1));
    assert CLIENT_STARTS[1..] == [Shutdown(1)];
  }

  lemma ClientAdds()
    ensures Reaches(Alone([], false, Dead, false, map[0 := Client(0)], 1), [AddTo(0, 0)],
                    Alone([0], true, Dead, false, map[], 1))
  {
    var s := Alone([], false, Dead, false, map[0 := Client(0)], 1);
    var next := Next(s, AddTo(0, 0));
    assert next.clients == map[] && next.queues[0].items == [0] && next.added[0] == [0] && next.accepted == [0];
    ReachesOne(s, AddTo(0, 0));
  }

  /** A shutdown does not stop a client that is past its test: the pool has terminated when its runnable
      is accepted, by a queue that no worker will look at again. */
  lemma LateSubmission() returns (s: Pool)
    ensures RunFrom(Start(1, 10), LATE_RUN) == Some(s) && AllDead(s) && s.terminated && s.accepted == [0]
    ensures |s.queues| == 1 && s.queues[0].items == [0]
  {
    hide Reaches, RunFrom;
    ClientStarts();
    WorkerEnds();
    ClientAdds();
    var pending := map[0 := Client(0)];
    s := Alone([0], true, Dead, false, map[], 1);
    var p0, p1 := Start(1, 10), Alone([], false, Waiting, false, pending, 0);
    var p2 := Alone([], false, Dead, false, pending, 1);
    ReachesOn(p0, CLIENT_STARTS, p1, WORKER_ENDS, p2);
    ReachesOn(p0, CLIENT_STARTS + WORKER_ENDS, p2, [AddTo(0, 0)], s);
    ReachesIsRun(p0, LATE_RUN, s);
  }

  /** A pool of one worker without clients. */
  function Solo(mode: nat, items: seq<Ticket>, signaled: bool, w: Worker, busy: bool, done: nat,
                accepted: seq<Ticket>, taken: seq<Ticket>, ran: seq<Ticket>): (s: Pool)
    requires mode <= 2
    ensures PoolOK(s)
  {
    Pool(10, mode, [QueueState(items, true, signaled)], [w], [busy], map[], |accepted|, done, done >= 1, [accepted],
         [taken], accepted, ran, [])
  }

  const FIRST_RUNNABLE := [
    Wake(0), ResetEvent(0), CheckNow(0), Enter(0), PollOwn(0), CheckHeld(0), Finish(0), PollOwn(0), Decide(0),
    Choose(0, 0), Steal(0)]
  const GRACEFUL_END := [Shutdown(1), SignalQueue(0), Leave(0), CheckEnd(0), CountDone(0)]
  const LOSING_RUN := [Submit(0), AddTo(0, 0)] + FIRST_RUNNABLE + [Submit(0), AddTo(0, 0)] + GRACEFUL_END

  function FirstRunnableStates(): (states: seq<Pool>)
    ensures |states| == |FIRST_RUNNABLE| + 1
  {
    [
      Solo(0, [0], true, Waiting, false, 0, [0], [], []),
      Solo(0, [0], true, Woken, false, 0, [0], [], []),
      Solo(0, [0], false, Checking, false, 0, [0], [], []),
      Solo(0, [0], false, Entering, false, 0, [0], [], []),
      Solo(0, [0], false, Polling, true, 0, [0], [], []),
      Solo(0, [], false, Holding(0), true, 0, [0], [0], []),
      Solo(0, [], false, Running(0), true, 0, [0], [0], []),
      Solo(0, [], false, Polling, true, 0, [0], [0], [0]),
      Solo(0, [], false, Deciding(None), true, 0, [0], [0], [0]),
      Solo(0, [], false, Choosing, true, 0, [0], [0], [0]),
      Solo(0, [], false, Stealing(0), true, 0, [0], [0], [0]),
      Solo(0, [], false, Leaving, true, 0, [0], [0], [0])]
  }

  lemma WakesFirst(i: nat)
    requires i < 4
    ensures StepsTo(FirstRunnableStates()[i], FIRST_RUNNABLE[i], FirstRunnableStates()[i + 1])
  {
    if i == 0 {
    } else if i == 1 {
    } else if i == 2 {
    } else {
    }
  }

  lemma RunsFirst(i: nat)
    requires 4 <= i < 7
    ensures StepsTo(FirstRunnableStates()[i], FIRST_RUNNABLE[i], FirstRunnableStates()[i + 1])
  {
    if i == 4 {
      TakesLast(QueueState([0], true, false));
    } else if i == 5 {
    } else {
    }
  }

  lemma FindsNoSecond(i: nat)
    requires 7 <= i < |FIRST_RUNNABLE|
    ensures StepsTo(FirstRunnableStates()[i], FIRST_RUNNABLE[i], FirstRunnableStates()[i + 1])
  {
    assert [0] + [] == [0];
    if i == 7 {
    } else if i == 8 {
    } else if i == 9 {
    } else {
    }
  }

  lemma FirstRunnableDone()
    ensures Reaches(Solo(0, [0], true, Waiting, false, 0, [0], [], []), FIRST_RUNNABLE,
                    Solo(0, [], false, Leaving, true, 0, [0], [0], [0]))
  {
    hide Reaches, StepsTo;
    forall i | 0 <= i < |FIRST_RUNNABLE|
      ensures StepsTo(FirstRunnableStates()[i], FIRST_RUNNABLE[i], FirstRunnableStates()[i + 1])
    {
      if i < 4 {
        WakesFirst(i);
      } else if i < 7 {
        RunsFirst(i);
      } else {
        FindsNoSecond(i);
      }
    }
    ReachesThrough(FirstRunnableStates(), FIRST_RUNNABLE);
  }

  function GracefulEndStates(): (states: seq<Pool>)
    ensures |states| == |GRACEFUL_END| + 1
  {
    [
      Solo(0, [1], true, Leaving, true, 0, [0, 1], [0], [0]),
      Solo(1, [1], true, Leaving, true, 0, [0, 1], [0], [0]),
      Solo(1, [1], true, Leaving, true, 0, [0, 1], [0], [0]),
      Solo(1, [1], true, Finishing, false, 0, [0, 1], [0], [0]),
      Solo(1, [1], true, Exiting, false, 0, [0, 1], [0], [0]),
      Solo(1, [1], true, Dead, false, 1, [0, 1], [0], [0])]
  }

  lemma GracefulEndStep(i: nat)
    requires i < |GRACEFUL_END|
    ensures StepsTo(GracefulEndStates()[i], GRACEFUL_END[i], GracefulEndStates()[i + 1])
  {
    if i == 0 {
    } else if i == 1 {
    } else if i == 2 {
    } else if i == 3 {
    } else {
    }
  }

  lemma GracefulEndDone()
    ensures Reaches(Solo(0, [1], true, Leaving, true, 0, [0, 1], [0], [0]), GRACEFUL_END,
                    Solo(1, [1], true, Dead, false, 1, [0, 1], [0], [0]))
  {
    hide Reaches, StepsTo;
    forall i | 0 <= i < |GRACEFUL_END|
      ensures StepsTo(GracefulEndStates()[i], GRACEFUL_END[i], GracefulEndStates()[i + 1])
    {
      GracefulEndStep(i);
    }
    ReachesThrough(GracefulEndStates(), GRACEFUL_END);
  }

  lemma SoloSubmissions()
    ensures Reaches(Start(1, 10), [Submit(0), AddTo(0, 0)], Solo(0, [0], true, Waiting, false, 0, [0], [], []))
    ensures Reaches(Solo(0, [], false, Leaving, true, 0, [0], [0], [0]), [Submit(0), AddTo(0, 0)],
                    Solo(0, [1], true, Leaving, true, 0, [0, 1], [0], [0]))
  {
    hide Reaches;
    var s, t := Start(1, 10), Solo(0, [], false, Leaving, true, 0, [0], [0], [0]);
    var s' := Solo(0, [0], true, Waiting, false, 0, [0], [], []);
    var t' := Solo(0, [1], true, Leaving, true, 0, [0, 1], [0], [0]);
    SubmissionReaches(s, 0);
    SubmissionReaches(t, 0);
    assert Submitted(s, 0) == s' by {
      var u := Submitted(s, 0);
      assert u.queues[0].items == [0] == u.added[0];
      assert u.queues == s'.queues && u.workers == s'.workers && u.busy == s'.busy;
      assert u.added == s'.added && u.removed == s'.removed;
    }
    assert Submitted(t, 0) == t' by {
      var u := Submitted(t, 0);
      assert u.queues[0].items == [1] && u.added[0] == [0, 1] == u.accepted;
    }
  }

  /** A graceful shutdown can lose a runnable accepted before it: the worker, already past its last look
      when the runnable comes, ends without another. */
  lemma ShutdownLosesAccepted() returns (s: Pool)
    ensures RunFrom(Start(1, 10), LOSING_RUN) == Some(s) && AllDead(s) && s.terminated && s.clients == map[]
    ensures s.shutdownMode == 1 && s.accepted == [0, 1] && s.executed == [0]
    ensures |s.queues| == 1 && s.queues[0].items == [1]
  {
    hide Reaches, RunFrom;
    SoloSubmissions();
    FirstRunnableDone();
    GracefulEndDone();
    var p0, p1 := Start(1, 10), Solo(0, [0], true, Waiting, false, 0, [0], [], []);
    var p2 := Solo(0, [], false, Leaving, true, 0, [0], [0], [0]);
    var p3 := Solo(0, [1], true, Leaving, true, 0, [0, 1], [0], [0]);
    s := Solo(1, [1], true, Dead, false, 1, [0, 1], [0], [0]);
    ReachesOn(p0, [Submit(0), AddTo(0, 0)], p1, FIRST_RUNNABLE, p2);
    ReachesOn(p0, [Submit(0), AddTo(0, 0)] + FIRST_RUNNABLE, p2, [Submit(0), AddTo(0, 0)], p3);
    ReachesOn(p0, [Submit(0), AddTo(0, 0)] + FIRST_RUNNABLE + [Submit(0), AddTo(0, 0)], p3, GRACEFUL_END, s);
    ReachesIsRun(p0, LOSING_RUN, s);
  }
}
