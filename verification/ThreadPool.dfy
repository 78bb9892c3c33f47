/** The thread pool with work stealing: every step is one lock region, counter access or event
    operation of the source, and any worker or client may take the next one. */
module ThreadPool {
  import opened Wrappers

  /** A submission: tickets tell two submissions of one runnable apart. */
  type Ticket = nat

  // ---- One queue ---------------------------------------------------------------------------

  /** A queue: its items, whether it accepts more, and its manual-reset event. */
  datatype QueueState = QueueState(items: seq<Ticket>, canAdd: bool, signaled: bool)

  const EMPTY_QUEUE := QueueState([], true, false)

  function Added(q: QueueState, r: Ticket, maxItems: nat): (QueueState, bool) {
    if !q.canAdd || |q.items| >= maxItems then (q, false)
    else (QueueState(q.items + [r], q.canAdd, true), true)
  }

  function Front(q: QueueState): Option<Ticket> {
    if q.items == [] then None else Some(q.items[0])
  }

  function Popped(q: QueueState): seq<Ticket> {
    if q.items == [] then [] else q.items[1..]
  }

  /** The owner resets the event only when it empties the queue. */
  function Polled(q: QueueState): QueueState {
    if q.items == [] then q else QueueState(Popped(q), q.canAdd, q.signaled && Popped(q) != [])
  }

  /** A thief always resets it. */
  function Stolen(q: QueueState): QueueState {
    QueueState(Popped(q), q.canAdd, false)
  }

  function Invalidated(q: QueueState): QueueState {
    QueueState([], false, q.signaled)
  }

  /** `RunnableQueue`; each method is one lock region. */
  class RunnableQueue {
    const threadID: nat
    const maxItems: nat
    var queue: seq<Ticket>
    var canAdd: bool
    var hasRunnable: bool

    function State(): QueueState
      reads this
    {
      QueueState(queue, canAdd, hasRunnable)
    }

    constructor (threadID: nat, maxItems: nat)
      ensures State() == EMPTY_QUEUE && this.threadID == threadID && this.maxItems == maxItems
    {
      this.threadID := threadID;
      this.maxItems := maxItems;
      queue, canAdd, hasRunnable := [], true, false;
    }

    method Invalidate()
      modifies this
      ensures State() == Invalidated(old(State()))
    {
      canAdd := false;
      queue := [];
    }

    method Add(r: Ticket) returns (ok: bool)
      modifies this
      ensures (State(), ok) == Added(old(State()), r, maxItems)
    {
      if !canAdd {
        return false;
      }
      if |queue| >= maxItems {
        return false;
      }
      queue := queue + [r];
      hasRunnable := true;
      ok := true;
    }

    /** Refused, without effect, to every thread but the owner. */
    method Poll(caller: nat) returns (r: Option<Ticket>)
      modifies this
      ensures caller != threadID ==> r == None && unchanged(this)
      ensures caller == threadID ==> r == Front(old(State())) && State() == Polled(old(State()))
    {
      if threadID != caller {
        return None;
      }
      if queue == [] {
        return None;
      }
      r := Some(queue[0]);
      queue := queue[1..];
      if queue == [] {
        hasRunnable := false;
      }
    }

    method StealPoll() returns (r: Option<Ticket>)
      modifies this
      ensures r == Front(old(State())) && State() == Stolen(old(State()))
    {
      hasRunnable := false;
      if queue == [] {
        return None;
      }
      r := Some(queue[0]);
      queue := queue[1..];
    }
  }

  // ---- The pool ----------------------------------------------------------------------------

  /** Where a worker is in `_Run`. */
  datatype Worker =
    | Waiting                        // WaitForRunnable
    | Woken                          // reset the own event
    | Checking                       // _shutdownMode == 2 ?
    | Closing                        // Invalidate the own queue
    | Entering                       // isBusy := 1
    | Polling
    | Holding(r: Ticket)             // polled r; _shutdownMode == 2 ?
    | Deciding(dropped: Option<Ticket>)  // second look at _shutdownMode
    | Choosing                       // pick a victim
    | Stealing(victim: nat)
    | Running(r: Ticket)
    | Leaving                        // isBusy := 0
    | Finishing                      // _shutdownMode != 0 ?
    | Exiting                        // _IncDoneCountForShutdown
    | Dead

  /** A client inside `Execute` or `Submit`, past the test of `_shutdownMode`. */
  datatype Client = Client(r: Ticket)

  /** `added` and `removed` record, per queue, what ever went in and came out, in order. */
  datatype Pool = Pool(
    maxItems: nat,
    shutdownMode: nat,
    queues: seq<QueueState>,
    workers: seq<Worker>,
    busy: seq<bool>,
    clients: map<nat, Client>,
    nextTicket: Ticket,
    doneCount: nat,
    terminated: bool,
    added: seq<seq<Ticket>>,
    removed: seq<seq<Ticket>>,
    accepted: seq<Ticket>,
    executed: seq<Ticket>,
    discarded: seq<Ticket>)

  datatype Action =
    | Wake(w: nat)
    | ResetEvent(w: nat)
    | CheckNow(w: nat)
    | CloseQueue(w: nat)
    | Enter(w: nat)
    | PollOwn(w: nat)
    | CheckHeld(w: nat)
    | Decide(w: nat)
    | Choose(w: nat, victim: nat)
    | Steal(w: nat)
    | Finish(w: nat)
    | Leave(w: nat)
    | CheckEnd(w: nat)
    | CountDone(w: nat)
    | Submit(client: nat)            // Execute or Submit: the test of _shutdownMode
    | AddTo(client: nat, q: nat)     // ... and the Add
    | Shutdown(mode: nat)            // the write of _shutdownMode
    | SignalQueue(q: nat)            // Shutdown and ShutdownNow wake the live workers
    | CountDead(q: nat)              // ... and count the dead ones

  predicate PoolOK(s: Pool) {
    && |s.queues| == |s.workers| == |s.busy| == |s.added| == |s.removed|
    && s.shutdownMode <= 2
  }

  /** The worker an action belongs to is where the action starts. */
  predicate Enabled(s: Pool, a: Action) {
    && PoolOK(s)
    && match a
       case Wake(w) => w < |s.workers| && s.workers[w].Waiting? && s.queues[w].signaled
       case ResetEvent(w) => w < |s.workers| && s.workers[w].Woken?
       case CheckNow(w) => w < |s.workers| && s.workers[w].Checking?
       case CloseQueue(w) => w < |s.workers| && s.workers[w].Closing?
       case Enter(w) => w < |s.workers| && s.workers[w].Entering?
       case PollOwn(w) => w < |s.workers| && s.workers[w].Polling?
       case CheckHeld(w) => w < |s.workers| && s.workers[w].Holding?
       case Decide(w) => w < |s.workers| && s.workers[w].Deciding?
       case Choose(w, v) => w < |s.workers| && s.workers[w].Choosing? && v < |s.queues|
       case Steal(w) => w < |s.workers| && s.workers[w].Stealing? && s.workers[w].victim < |s.queues|
       case Finish(w) => w < |s.workers| && s.workers[w].Running?
       case Leave(w) => w < |s.workers| && s.workers[w].Leaving?
       case CheckEnd(w) => w < |s.workers| && s.workers[w].Finishing?
       case CountDone(w) => w < |s.workers| && s.workers[w].Exiting?
       case Submit(c) => c !in s.clients
       case AddTo(c, q) => c in s.clients && q < |s.queues|
       case Shutdown(mode) => mode == 1 || mode == 2
       case SignalQueue(q) => q < |s.queues|
       case CountDead(q) => q < |s.workers| && s.workers[q].Dead?
  }

  function At(s: Pool, w: nat, next: Worker): Pool
    requires w < |s.workers|
  {
    s.(workers := s.workers[w := next])
  }

  function AsSeq(r: Option<Ticket>): seq<Ticket> {
    if r.None? then [] else [r.value]
  }

  /** Takes the front item of queue `q`, leaving the queue as `after`. */
  function TakenFrom(s: Pool, q: nat, after: QueueState): Pool
    requires PoolOK(s) && q < |s.queues|
  {
    s.(queues := s.queues[q := after], removed := s.removed[q := s.removed[q] + AsSeq(Front(s.queues[q]))])
  }

  function CountedDone(s: Pool): Pool {
    s.(doneCount := s.doneCount + 1, terminated := s.terminated || s.doneCount + 1 == |s.workers|)
  }

  function Next(s: Pool, a: Action): (s': Pool)
    requires Enabled(s, a)
    ensures PoolOK(s') && |s'.workers| == |s.workers| && s'.maxItems == s.maxItems
  {
    match a
    case Wake(w) => At(s, w, Woken)
    case ResetEvent(w) => At(s, w, Checking).(queues := s.queues[w := s.queues[w].(signaled := false)])
    case CheckNow(w) => At(s, w, if s.shutdownMode == 2 then Closing else Entering)
    case CloseQueue(w) =>
      At(s, w, Exiting).(
        queues := s.queues[w := Invalidated(s.queues[w])],
        removed := s.removed[w := s.removed[w] + s.queues[w].items],
        discarded := s.discarded + s.queues[w].items)
    case Enter(w) => At(s, w, Polling).(busy := s.busy[w := true])
    case PollOwn(w) =>
      var r := Front(s.queues[w]);
      At(TakenFrom(s, w, Polled(s.queues[w])), w, if r.Some? then Holding(r.value) else Deciding(None))
    case CheckHeld(w) =>
      var r := s.workers[w].r;
      At(s, w, if s.shutdownMode == 2 then Deciding(Some(r)) else Running(r))
    case Decide(w) =>
      At(s, w, if s.shutdownMode == 2 then Leaving else Choosing).(
        discarded := s.discarded + AsSeq(s.workers[w].dropped))
    case Choose(w, v) => At(s, w, Stealing(v))
    case Steal(w) =>
      var v := s.workers[w].victim;
      var r := Front(s.queues[v]);
      At(TakenFrom(s, v, Stolen(s.queues[v])), w, if r.Some? then Running(r.value) else Leaving)
    case Finish(w) => At(s, w, Polling).(executed := s.executed + [s.workers[w].r])
    case Leave(w) => At(s, w, Finishing).(busy := s.busy[w := false])
    case CheckEnd(w) => At(s, w, if s.shutdownMode != 0 then Exiting else Waiting)
    case CountDone(w) => CountedDone(At(s, w, Dead))
    case Submit(c) =>
      if s.shutdownMode != 0 then s
      else s.(clients := s.clients[c := Client(s.nextTicket)], nextTicket := s.nextTicket + 1)
    case AddTo(c, q) =>
      var r := s.clients[c].r;
      var (after, ok) := Added(s.queues[q], r, s.maxItems);
      var s1 := s.(clients := s.clients - {c}, queues := s.queues[q := after]);
      if ok then s1.(added := s.added[q := s.added[q] + [r]], accepted := s.accepted + [r]) else s1
    case Shutdown(mode) => s.(shutdownMode := mode)
    case SignalQueue(q) => s.(queues := s.queues[q := s.queues[q].(signaled := true)])
    case CountDead(_) => CountedDone(s)
  }

  /** A pool of `n` workers, all waiting, nothing submitted. */
  function Start(n: nat, maxItems: nat): (s: Pool)
    ensures PoolOK(s)
  {
    Pool(maxItems, 0, seq(n, _ => EMPTY_QUEUE), seq(n, _ => Waiting), seq(n, _ => false), map[], 0, 0, false,
         seq(n, _ => []), seq(n, _ => []), [], [], [])
  }

  /** The state after a run, if every action is possible when its turn comes. */
  function RunFrom(s: Pool, run: seq<Action>): Option<Pool>
    decreases |run|
  {
    if run == [] then Some(s)
    else if Enabled(s, run[0]) then RunFrom(Next(s, run[0]), run[1..]) else None
  }

  // ---- Conservation ------------------------------------------------------------------------

  /** The runnable a worker has taken and not yet run or dropped. */
  function InHand(w: Worker): seq<Ticket> {
    match w
    case Holding(r) => [r]
    case Running(r) => [r]
    case Deciding(d) => AsSeq(d)
    case _ => []
  }

  function InFlight(ws: seq<Worker>): multiset<Ticket> {
    if ws == [] then multiset{} else InFlight(ws[..|ws| - 1]) + multiset(InHand(ws[|ws| - 1]))
  }

  function Pending(qs: seq<QueueState>): multiset<Ticket> {
    if qs == [] then multiset{} else Pending(qs[..|qs| - 1]) + multiset(qs[|qs| - 1].items)
  }

  ghost predicate Conserved(s: Pool) {
    multiset(s.accepted) == Pending(s.queues) + InFlight(s.workers) + multiset(s.executed) + multiset(s.discarded)
  }

  /** No ticket is accepted twice, and those still with clients are not accepted yet. */
  ghost predicate Distinct(s: Pool) {
    && (forall i, j :: 0 <= i < j < |s.accepted| ==> s.accepted[i] != s.accepted[j])
    && (forall r :: r in s.accepted ==> r < s.nextTicket)
    && (forall c :: c in s.clients ==> s.clients[c].r < s.nextTicket && s.clients[c].r !in s.accepted)
    && (forall c, d :: c in s.clients && d in s.clients && c != d ==> s.clients[c].r != s.clients[d].r)
  }

  /** Each queue is first in, first out, whoever takes from it. */
  ghost predicate Fifo(s: Pool) {
    PoolOK(s) && forall q :: 0 <= q < |s.queues| ==> s.added[q] == s.removed[q] + s.queues[q].items
  }

  ghost predicate Inv(s: Pool) {
    PoolOK(s) && Conserved(s) && Distinct(s) && Fifo(s)
  }

  lemma {:induction false} InFlightUpdate(ws: seq<Worker>, w: nat, x: Worker)
    requires w < |ws|
    ensures InFlight(ws[w := x]) + multiset(InHand(ws[w])) == InFlight(ws) + multiset(InHand(x))
    decreases |ws|
  {
    hide InHand;
    var n := |ws| - 1;
    if w == n {
      assert ws[w := x][..n] == ws[..n];
    } else {
      assert ws[w := x][..n] == ws[..n][w := x] && ws[w := x][n] == ws[n];
      InFlightUpdate(ws[..n], w, x);
      Swap(InFlight(ws[..n][w := x]), multiset(InHand(ws[w])), InFlight(ws[..n]), multiset(InHand(x)),
          multiset(InHand(ws[n])));
    }
  }

  lemma {:induction false} PendingUpdate(qs: seq<QueueState>, q: nat, x: QueueState)
    requires q < |qs|
    ensures Pending(qs[q := x]) + multiset(qs[q].items) == Pending(qs) + multiset(x.items)
    decreases |qs|
  {
    var n := |qs| - 1;
    if q == n {
      assert qs[q := x][..n] == qs[..n];
    } else {
      assert qs[q := x][..n] == qs[..n][q := x] && qs[q := x][n] == qs[n];
      PendingUpdate(qs[..n], q, x);
      Swap(Pending(qs[..n][q := x]), multiset(qs[q].items), Pending(qs[..n]), multiset(x.items), multiset(qs[n].items));
    }
  }

  lemma Swap(a: multiset<Ticket>, b: multiset<Ticket>, c: multiset<Ticket>, d: multiset<Ticket>, e: multiset<Ticket>)
    requires a + b == c + d
    ensures (a + e) + b == (c + e) + d
  {
    assert (a + e) + b == (a + b) + e;
  }

  lemma InFlightSame(ws: seq<Worker>, w: nat, x: Worker)
    requires w < |ws| && InHand(ws[w]) == InHand(x)
    ensures InFlight(ws[w := x]) == InFlight(ws)
  {
    InFlightUpdate(ws, w, x);
    var hand := multiset(InHand(x));
    assert InFlight(ws[w := x]) == InFlight(ws[w := x]) + hand - hand;
    assert InFlight(ws) == InFlight(ws) + hand - hand;
  }

  lemma PendingSame(qs: seq<QueueState>, q: nat, x: QueueState)
    requires q < |qs| && qs[q].items == x.items
    ensures Pending(qs[q := x]) == Pending(qs)
  {
    PendingUpdate(qs, q, x);
    var items := multiset(x.items);
    assert Pending(qs[q := x]) == Pending(qs[q := x]) + items - items;
    assert Pending(qs) == Pending(qs) + items - items;
  }

  lemma FrontAndRest(q: QueueState)
    ensures q.items == AsSeq(Front(q)) + Popped(q)
    ensures multiset(q.items) == multiset(AsSeq(Front(q))) + multiset(Popped(q))
  {
    assert q.items == AsSeq(Front(q)) + Popped(q);
  }

  lemma CloseConserves(s: Pool, w: nat)
    requires Enabled(s, CloseQueue(w)) && Conserved(s)
    ensures Conserved(Next(s, CloseQueue(w)))
  {
    hide InFlight, Pending;
    var s' := Next(s, CloseQueue(w));
    var q := s.queues[w];
    InFlightSame(s.workers, w, Exiting);
    PendingUpdate(s.queues, w, Invalidated(q));
    assert multiset(Invalidated(q).items) == multiset{};
    assert Pending(s'.queues) + multiset(q.items) == Pending(s.queues);
    assert multiset(s'.discarded) == multiset(s.discarded) + multiset(q.items);
    assert InFlight(s'.workers) == InFlight(s.workers);
    Rearrange(Pending(s'.queues), multiset(q.items), InFlight(s.workers), multiset(s.executed), multiset(s.discarded));
  }

  lemma Rearrange(p: multiset<Ticket>, i: multiset<Ticket>, f: multiset<Ticket>, e: multiset<Ticket>,
      d: multiset<Ticket>)
    ensures (p + i) + f + e + d == p + f + e + (d + i) == p + (f + i) + e + d
  {
  }

  lemma TakeConserves(s: Pool, w: nat, q: nat, after: QueueState, next: Worker)
    requires PoolOK(s) && Conserved(s) && w < |s.workers| && q < |s.queues|
    requires after.items == Popped(s.queues[q])
    requires InHand(s.workers[w]) == [] && InHand(next) == AsSeq(Front(s.queues[q]))
    ensures Conserved(At(TakenFrom(s, q, after), w, next))
  {
    hide InFlight, Pending, InHand, Popped, Front;
    InFlightUpdate(s.workers, w, next);
    PendingUpdate(s.queues, q, after);
    FrontAndRest(s.queues[q]);
    var front := multiset(AsSeq(Front(s.queues[q])));
    var rest := multiset(Popped(s.queues[q]));
    Cancel(Pending(s.queues[q := after]) + front, Pending(s.queues), rest);
    assert InFlight(s.workers[w := next]) == InFlight(s.workers) + front;
    Rearrange(Pending(s.queues[q := after]), front, InFlight(s.workers), multiset(s.executed), multiset(s.discarded));
  }

  lemma Cancel(a: multiset<Ticket>, b: multiset<Ticket>, c: multiset<Ticket>)
    requires a + c == b + c
    ensures a == b
  {
    assert a == a + c - c && b == b + c - c;
  }

  lemma Rebalance(p: multiset<Ticket>, f: multiset<Ticket>, f': multiset<Ticket>, e: multiset<Ticket>,
                  e': multiset<Ticket>, before: multiset<Ticket>, after: multiset<Ticket>)
    requires f' + before == f + after && e' + after == e + before
    ensures p + f + e == p + f' + e'
  {
    assert (f' + e') + (before + after) == (f' + before) + (e' + after);
    assert (f + e) + (before + after) == (f + after) + (e + before);
    Cancel(f' + e', f + e, before + after);
    assert p + f + e == p + (f + e) && p + f' + e' == p + (f' + e');
  }

  lemma PollConserves(s: Pool, w: nat)
    requires Enabled(s, PollOwn(w)) && Conserved(s)
    ensures Conserved(Next(s, PollOwn(w)))
  {
    hide InFlight, Pending, Conserved;
    var r := Front(s.queues[w]);
    TakeConserves(s, w, w, Polled(s.queues[w]), if r.Some? then Holding(r.value) else Deciding(None));
  }

  lemma StealConserves(s: Pool, w: nat)
    requires Enabled(s, Steal(w)) && Conserved(s)
    ensures Conserved(Next(s, Steal(w)))
  {
    hide InFlight, Pending, Conserved;
    var v := s.workers[w].victim;
    var r := Front(s.queues[v]);
    TakeConserves(s, w, v, Stolen(s.queues[v]), if r.Some? then Running(r.value) else Leaving);
  }

  lemma AddConserves(s: Pool, c: nat, q: nat)
    requires Enabled(s, AddTo(c, q)) && Conserved(s)
    ensures Conserved(Next(s, AddTo(c, q)))
  {
    hide InFlight, Pending;
    var r := s.clients[c].r;
    var (after, ok) := Added(s.queues[q], r, s.maxItems);
    if ok {
      PendingUpdate(s.queues, q, after);
      assert multiset(after.items) == multiset{r} + multiset(s.queues[q].items);
      Cancel(Pending(s.queues[q := after]), Pending(s.queues) + multiset{r}, multiset(s.queues[q].items));
      assert multiset(Next(s, AddTo(c, q)).accepted) == multiset(s.accepted) + multiset{r};
    } else {
      PendingSame(s.queues, q, after);
    }
  }

  /** A worker's step that touches no queue. */
  lemma WorkerConserves(s: Pool, s': Pool, w: nat, next: Worker)
    requires PoolOK(s) && Conserved(s) && w < |s.workers|
    requires s'.accepted == s.accepted && s'.workers == s.workers[w := next]
    requires Pending(s'.queues) == Pending(s.queues)
    requires multiset(s'.executed) + multiset(s'.discarded) + multiset(InHand(next)) ==
             multiset(s.executed) + multiset(s.discarded) + multiset(InHand(s.workers[w]))
    ensures Conserved(s')
  {
    hide InFlight, Pending, InHand;
    InFlightUpdate(s.workers, w, next);
    var before, after := multiset(InHand(s.workers[w])), multiset(InHand(next));
    Rebalance(Pending(s.queues), InFlight(s.workers), InFlight(s'.workers), multiset(s.executed) +
        multiset(s.discarded),
              multiset(s'.executed) + multiset(s'.discarded), before, after);
    assert multiset(s.accepted) == Pending(s.queues) + InFlight(s.workers) + (multiset(s.executed) +
        multiset(s.discarded));
    assert Pending(s.queues) + InFlight(s'.workers) + (multiset(s'.executed) + multiset(s'.discarded)) ==
           Pending(s'.queues) + InFlight(s'.workers) + multiset(s'.executed) + multiset(s'.discarded);
  }

  /** Every step moves runnables without losing or copying one. */
  lemma NextConserves(s: Pool, a: Action)
    requires Enabled(s, a) && Conserved(s)
    ensures Conserved(Next(s, a))
  {
    hide Next, Conserved;
    match a {
      case CloseQueue(w) => CloseConserves(s, w);
      case PollOwn(w) => PollConserves(s, w);
      case Steal(w) => StealConserves(s, w);
      case AddTo(c, q) => AddConserves(s, c, q);
      case Finish(w) => FinishConserves(s, w);
      case Decide(w) => DecideConserves(s, w);
      case ResetEvent(w) => ResetConserves(s, w);
      case SignalQueue(q) => OutsideConserves(s, a);
      case Submit(_) => OutsideConserves(s, a);
      case Shutdown(_) => OutsideConserves(s, a);
      case CountDead(_) => OutsideConserves(s, a);
      case _ => QuietConserves(s, a);
    }
  }

  lemma OutsideConserves(s: Pool, a: Action)
    requires Enabled(s, a) && Conserved(s) && (a.SignalQueue? || a.Submit? || a.Shutdown? || a.CountDead?)
    ensures Conserved(Next(s, a))
  {
    hide InFlight, Pending;
    if a.SignalQueue? {
      PendingSame(s.queues, a.q, s.queues[a.q].(signaled := true));
    }
  }

  predicate Quiet(a: Action) {
    a.Wake? || a.CheckNow? || a.Enter? || a.CheckHeld? || a.Choose? || a.Leave? || a.CheckEnd? || a.CountDone?
  }

  lemma QuietStep(s: Pool, a: Action)
    requires Enabled(s, a) && Quiet(a)
    ensures var s' := Next(s, a);
            && s'.workers == s.workers[a.w := s'.workers[a.w]] && s'.queues == s.queues
            && s'.accepted == s.accepted && s'.executed == s.executed && s'.discarded == s.discarded
            && InHand(s'.workers[a.w]) == InHand(s.workers[a.w])
  {
  }

  lemma QuietConserves(s: Pool, a: Action)
    requires Enabled(s, a) && Conserved(s) && Quiet(a)
    ensures Conserved(Next(s, a))
  {
    hide Conserved, Next, InFlight, Pending, InHand;
    QuietStep(s, a);
    WorkerConserves(s, Next(s, a), a.w, Next(s, a).workers[a.w]);
  }

  lemma ResetConserves(s: Pool, w: nat)
    requires Enabled(s, ResetEvent(w)) && Conserved(s)
    ensures Conserved(Next(s, ResetEvent(w)))
  {
    hide InFlight, Pending;
    PendingSame(s.queues, w, s.queues[w].(signaled := false));
    WorkerConserves(s, Next(s, ResetEvent(w)), w, Checking);
  }

  lemma FinishConserves(s: Pool, w: nat)
    requires Enabled(s, Finish(w)) && Conserved(s)
    ensures Conserved(Next(s, Finish(w)))
  {
    hide InFlight, Pending;
    WorkerConserves(s, Next(s, Finish(w)), w, Polling);
  }

  lemma DecideConserves(s: Pool, w: nat)
    requires Enabled(s, Decide(w)) && Conserved(s)
    ensures Conserved(Next(s, Decide(w)))
  {
    hide InFlight, Pending;
    var s' := Next(s, Decide(w));
    WorkerConserves(s, s', w, s'.workers[w]);
  }

  lemma NextDistinct(s: Pool, a: Action)
    requires Enabled(s, a) && Distinct(s)
    ensures Distinct(Next(s, a))
  {
    match a {
      case Submit(c) => SubmitDistinct(s, c);
      case AddTo(c, q) => AddDistinct(s, c, q);
      case _ => hide Distinct; DistinctSame(s, Next(s, a));
    }
  }

  lemma DistinctSame(s: Pool, s': Pool)
    requires Distinct(s)
    requires s'.accepted == s.accepted && s'.clients == s.clients && s'.nextTicket == s.nextTicket
    ensures Distinct(s')
  {
  }

  lemma SubmitDistinct(s: Pool, c: nat)
    requires Enabled(s, Submit(c)) && Distinct(s)
    ensures Distinct(Next(s, Submit(c)))
  {
  }

  lemma AddDistinct(s: Pool, c: nat, q: nat)
    requires Enabled(s, AddTo(c, q)) && Distinct(s)
    ensures Distinct(Next(s, AddTo(c, q)))
  {
  }

  lemma QueueFifo(s: Pool, q: nat)
    requires Fifo(s) && q < |s.queues|
    ensures s.added[q] == s.removed[q] + s.queues[q].items
  {
  }

  lemma FifoSame(s: Pool, s': Pool)
    requires Fifo(s) && PoolOK(s')
    requires s'.added == s.added && s'.removed == s.removed && |s'.queues| == |s.queues|
    requires forall q :: 0 <= q < |s.queues| ==> s'.queues[q].items == s.queues[q].items
    ensures Fifo(s')
  {
  }

  lemma FifoAt(s: Pool, s': Pool, q: nat)
    requires Fifo(s) && PoolOK(s') && q < |s.queues| == |s'.queues|
    requires forall p :: 0 <= p < |s.queues| && p != q ==>
               s'.queues[p] == s.queues[p] && s'.added[p] == s.added[p] && s'.removed[p] == s.removed[p]
    requires s'.added[q] == s'.removed[q] + s'.queues[q].items
    ensures Fifo(s')
  {
  }

  lemma NextFifo(s: Pool, a: Action)
    requires Enabled(s, a) && Fifo(s)
    ensures Fifo(Next(s, a))
  {
    match a {
      case CloseQueue(w) => CloseFifo(s, w);
      case PollOwn(w) => PollFifo(s, w);
      case Steal(w) => StealFifo(s, w);
      case AddTo(c, q) => AddFifo(s, c, q);
      case _ => hide Fifo; FifoSame(s, Next(s, a));
    }
  }

  lemma CloseFifo(s: Pool, w: nat)
    requires Enabled(s, CloseQueue(w)) && Fifo(s)
    ensures Fifo(Next(s, CloseQueue(w)))
  {
    QueueFifo(s, w);
    hide Fifo;
    FifoAt(s, Next(s, CloseQueue(w)), w);
  }

  lemma PollFifo(s: Pool, w: nat)
    requires Enabled(s, PollOwn(w)) && Fifo(s)
    ensures Fifo(Next(s, PollOwn(w)))
  {
    QueueFifo(s, w);
    FrontAndRest(s.queues[w]);
    hide Fifo;
    FifoAt(s, Next(s, PollOwn(w)), w);
  }

  lemma StealFifo(s: Pool, w: nat)
    requires Enabled(s, Steal(w)) && Fifo(s)
    ensures Fifo(Next(s, Steal(w)))
  {
    var v := s.workers[w].victim;
    QueueFifo(s, v);
    FrontAndRest(s.queues[v]);
    hide Fifo;
    FifoAt(s, Next(s, Steal(w)), v);
  }

  lemma AddFifo(s: Pool, c: nat, q: nat)
    requires Enabled(s, AddTo(c, q)) && Fifo(s)
    ensures Fifo(Next(s, AddTo(c, q)))
  {
    QueueFifo(s, q);
    hide Fifo;
    FifoAt(s, Next(s, AddTo(c, q)), q);
  }

  lemma StartInv(n: nat, maxItems: nat)
    ensures Inv(Start(n, maxItems))
  {
    StartEmpty(n);
  }

  lemma {:induction false} StartEmpty(n: nat)
    ensures Pending(seq(n, _ => EMPTY_QUEUE)) == multiset{} && InFlight(seq(n, _ => Waiting)) == multiset{}
  {
    if n > 0 {
      StartEmpty(n - 1);
      assert seq(n, _ => EMPTY_QUEUE)[..n - 1] == seq(n - 1, _ => EMPTY_QUEUE);
      assert seq(n, _ => Waiting)[..n - 1] == seq(n - 1, _ => Waiting);
    }
  }

  /** The invariant holds over every interleaving. */
  lemma {:induction false} RunKeepsInv(s: Pool, run: seq<Action>)
    requires Inv(s) && RunFrom(s, run).Some?
    ensures Inv(RunFrom(s, run).value)
    decreases |run|
  {
    if run != [] {
      NextConserves(s, run[0]);
      NextDistinct(s, run[0]);
      NextFifo(s, run[0]);
      RunKeepsInv(Next(s, run[0]), run[1..]);
    }
  }

  /** Over every interleaving of clients, owners, thieves, shutdowns and worker exits, each accepted
      runnable is in exactly one place: a queue, a worker's hand, executed or discarded. So none is
      lost and none runs twice. Each queue gives out its runnables in the order it took them. */
  lemma NothingLostNothingTwice(n: nat, maxItems: nat, run: seq<Action>, r: Ticket, q: nat)
    requires RunFrom(Start(n, maxItems), run).Some?
    ensures var s := RunFrom(Start(n, maxItems), run).value;
            var places := Pending(s.queues)[r] + InFlight(s.workers)[r] + multiset(s.executed)[r] +
                multiset(s.discarded)[r];
            && PoolOK(s)
            && places == (if r in s.accepted then 1 else 0)
            && (q < |s.queues| ==> s.removed[q] <= s.added[q])
  {
    StartInv(n, maxItems);
    RunKeepsInv(Start(n, maxItems), run);
    var s := RunFrom(Start(n, maxItems), run).value;
    OnceEach(s.accepted, r);
    assert multiset(s.accepted)[r] == Pending(s.queues)[r] + InFlight(s.workers)[r] + multiset(s.executed)[r] +
        multiset(s.discarded)[r];
  }

  lemma {:induction false} OnceEach(rs: seq<Ticket>, r: Ticket)
    requires forall i, j :: 0 <= i < j < |rs| ==> rs[i] != rs[j]
    ensures multiset(rs)[r] == if r in rs then 1 else 0
    decreases |rs|
  {
    if rs != [] {
      var n := |rs| - 1;
      assert rs == rs[..n] + [rs[n]];
      OnceEach(rs[..n], r);
    }
  }

  // ---- Wake-ups ------------------------------------------------------------------------------

  /** The worker looks at its own queue before it waits or ends. */
  predicate Attending(w: Worker) {
    w.Woken? || w.Checking? || w.Closing? || w.Entering? || w.Polling? || w.Holding? || w.Running?
  }

  /** The worker is past its last look and on its way to wait, unless there is a shutdown. */
  predicate Retiring(w: Worker) {
    w.Deciding? || w.Choosing? || w.Stealing? || w.Leaving? || w.Finishing?
  }

  /** The owner will find a set event: it waits for it, or is going to. */
  predicate WillWait(owner: Worker, mode: nat) {
    owner.Waiting? || (mode == 0 && Retiring(owner))
  }

  /** What is in the queue will be looked at: by an owner that does so anyway, or by one that finds its
      event set. */
  predicate Tended(q: QueueState, owner: Worker, mode: nat) {
    q.items == [] || Attending(owner) || (q.signaled && WillWait(owner, mode))
  }

  ghost predicate AllTended(s: Pool) {
    PoolOK(s) && forall q :: 0 <= q < |s.queues| ==> Tended(s.queues[q], s.workers[q], s.shutdownMode)
  }

  /** The steps after which no owner is bound to look at a queue that holds runnables: a steal that
      leaves some behind an owner that has stopped looking; a worker that drops the runnable it holds at
      an immediate shutdown, with others left; a shutdown over the queue of a worker past its last look;
      and a runnable added to such a queue after a shutdown, or to that of a worker that ends. */
  ghost predicate Neglects(s: Pool, a: Action)
    requires Enabled(s, a)
  {
    match a
    case Steal(w) =>
      var v := s.workers[w].victim;
      v != w && |s.queues[v].items| >= 2 && !Attending(s.workers[v])
    case CheckHeld(w) => s.shutdownMode == 2 && s.queues[w].items != []
    case Shutdown(_) =>
      s.shutdownMode == 0 && exists q :: 0 <= q < |s.queues| && s.queues[q].items != [] && Retiring(s.workers[q])
    case AddTo(_, q) =>
      && s.queues[q].canAdd && |s.queues[q].items| < s.maxItems
      && !Attending(s.workers[q]) && !WillWait(s.workers[q], s.shutdownMode)
    case _ => false
  }

  lemma TendedElsewhere(s: Pool, s': Pool, q: nat)
    requires AllTended(s) && PoolOK(s') && q < |s.queues| == |s'.queues|
    requires forall p :: 0 <= p < |s.queues| && p != q ==> Tended(s'.queues[p], s'.workers[p], s'.shutdownMode)
    ensures AllTended(s') <==> Tended(s'.queues[q], s'.workers[q], s'.shutdownMode)
  {
  }

  /** Every step keeps all queues tended, except exactly those that neglect one. */
  lemma NeglectsExactly(s: Pool, a: Action)
    requires Enabled(s, a) && AllTended(s)
    ensures AllTended(Next(s, a)) <==> !Neglects(s, a)
  {
    match a {
      case Steal(w) => StealNeglects(s, w);
      case AddTo(_, _) => AddNeglects(s, a);
      case Shutdown(_) => ShutdownNeglects(s, a);
      case SignalQueue(q) => SignalTends(s, q);
      case Submit(_) =>
      case CountDead(_) =>
      case _ => WorkerNeglects(s, a);
    }
  }

  lemma AddNeglects(s: Pool, a: Action)
    requires Enabled(s, a) && AllTended(s) && a.AddTo?
    ensures AllTended(Next(s, a)) <==> !Neglects(s, a)
  {
    assert Tended(s.queues[a.q], s.workers[a.q], s.shutdownMode);
    TendedElsewhere(s, Next(s, a), a.q);
  }

  lemma SignalTends(s: Pool, q: nat)
    requires Enabled(s, SignalQueue(q)) && AllTended(s)
    ensures AllTended(Next(s, SignalQueue(q)))
  {
    assert Tended(s.queues[q], s.workers[q], s.shutdownMode);
    TendedElsewhere(s, Next(s, SignalQueue(q)), q);
  }

  lemma ShutdownNeglects(s: Pool, a: Action)
    requires Enabled(s, a) && AllTended(s) && a.Shutdown?
    ensures AllTended(Next(s, a)) <==> !Neglects(s, a)
  {
    var s' := Next(s, a);
    assert s'.queues == s.queues && s'.workers == s.workers && s'.shutdownMode != 0;
    forall q | 0 <= q < |s.queues|
      ensures Tended(s'.queues[q], s'.workers[q], s'.shutdownMode) <==>
              !(s.shutdownMode == 0 && s.queues[q].items != [] && Retiring(s.workers[q]))
    {
      assert Tended(s.queues[q], s.workers[q], s.shutdownMode);
    }
  }

  /** A worker's own step. */
  predicate OfWorker(a: Action) {
    !a.Steal? && !a.AddTo? && !a.SignalQueue? && !a.Submit? && !a.Shutdown? && !a.CountDead?
  }

  lemma WorkerSees(s: Pool, a: Action)
    requires Enabled(s, a) && OfWorker(a) && Tended(s.queues[a.w], s.workers[a.w], s.shutdownMode)
    ensures Tended(Next(s, a).queues[a.w], Next(s, a).workers[a.w], s.shutdownMode) <==> !Neglects(s, a)
  {
    match a {
      case PollOwn(_) =>
      case CheckHeld(_) =>
      case CloseQueue(_) =>
      case ResetEvent(_) =>
      case _ =>
    }
  }

  lemma OthersAlone(s: Pool, a: Action)
    requires Enabled(s, a) && OfWorker(a)
    ensures var s' := Next(s, a);
            && s'.shutdownMode == s.shutdownMode
            && forall p :: 0 <= p < |s.queues| && p != a.w ==>
                 s'.queues[p] == s.queues[p] && s'.workers[p] == s.workers[p]
  {
  }

  lemma WorkerNeglects(s: Pool, a: Action)
    requires Enabled(s, a) && AllTended(s) && OfWorker(a)
    ensures AllTended(Next(s, a)) <==> !Neglects(s, a)
  {
    hide Next, Neglects, Tended;
    assert Tended(s.queues[a.w], s.workers[a.w], s.shutdownMode);
    WorkerSees(s, a);
    OthersAlone(s, a);
    TendedElsewhere(s, Next(s, a), a.w);
  }

  lemma StealNeglects(s: Pool, w: nat)
    requires Enabled(s, Steal(w)) && AllTended(s)
    ensures AllTended(Next(s, Steal(w))) <==> !Neglects(s, Steal(w))
  {
    var s' := Next(s, Steal(w));
    var v := s.workers[w].victim;
    assert Tended(s.queues[v], s.workers[v], s.shutdownMode) && Tended(s.queues[w], s.workers[w], s.shutdownMode);
    if v != w {
      assert s'.queues[w] == s.queues[w] && s'.workers[v] == s.workers[v];
    }
    TendedElsewhere(s, s', v);
  }

  /** Some step of the run neglects a queue. */
  ghost predicate Neglectful(s: Pool, run: seq<Action>)
    requires RunFrom(s, run).Some?
    decreases |run|
  {
    run != [] && (Neglects(s, run[0]) || Neglectful(Next(s, run[0]), run[1..]))
  }

  lemma {:induction false} RunKeepsTended(s: Pool, run: seq<Action>)
    requires AllTended(s) && RunFrom(s, run).Some? && !Neglectful(s, run)
    ensures AllTended(RunFrom(s, run).value)
    decreases |run|
  {
    hide AllTended, Neglects, Next;
    if run != [] {
      NeglectsExactly(s, run[0]);
      RunKeepsTended(Next(s, run[0]), run[1..]);
    }
  }

  /** No worker can move: each is dead or waits for an event that is not set. */
  ghost predicate Stalled(s: Pool) {
    PoolOK(s) && forall w :: 0 <= w < |s.workers| ==>
                   s.workers[w].Dead? || (s.workers[w].Waiting? && !s.queues[w].signaled)
  }

  /** In such a state only a client or a shutdown can take a step. */
  lemma StalledWorkers(s: Pool, a: Action)
    requires Stalled(s) && Enabled(s, a)
    ensures a.Submit? || a.AddTo? || a.Shutdown? || a.SignalQueue? || a.CountDead?
  {
  }

  lemma {:induction false} PendingNone(qs: seq<QueueState>)
    ensures Pending(qs) == multiset{} <==> forall q :: 0 <= q < |qs| ==> qs[q].items == []
    decreases |qs|
  {
    if qs != [] {
      var n := |qs| - 1;
      PendingNone(qs[..n]);
      assert qs == qs[..n] + [qs[n]];
      if qs[n].items != [] {
        assert qs[n].items[0] in multiset(qs[n].items);
        assert Pending(qs)[qs[n].items[0]] > 0;
      }
    }
  }

  /** When no worker can move, all queues are tended exactly if all are empty. */
  lemma StalledTended(s: Pool)
    requires Stalled(s)
    ensures AllTended(s) <==> Pending(s.queues) == multiset{}
  {
    PendingNone(s.queues);
  }

  lemma {:induction false} NothingInHand(ws: seq<Worker>)
    requires forall w :: 0 <= w < |ws| ==> ws[w].Dead? || ws[w].Waiting?
    ensures InFlight(ws) == multiset{}
    decreases |ws|
  {
    if ws != [] {
      NothingInHand(ws[..|ws| - 1]);
    }
  }

  /** No worker has seen an immediate shutdown, and nothing was discarded. */
  ghost predicate Gentle(s: Pool) {
    && PoolOK(s) && s.shutdownMode != 2 && s.discarded == []
    && forall w :: 0 <= w < |s.workers| ==>
         !s.workers[w].Closing? && (s.workers[w].Deciding? ==> s.workers[w].dropped.None?)
  }

  lemma StepStaysGentle(s: Pool, a: Action)
    requires Gentle(s) && Enabled(s, a) && a != Shutdown(2)
    ensures Gentle(Next(s, a))
  {
  }

  lemma {:induction false} RunStaysGentle(s: Pool, run: seq<Action>)
    requires Gentle(s) && RunFrom(s, run).Some? && Shutdown(2) !in run
    ensures Gentle(RunFrom(s, run).value)
    decreases |run|
  {
    hide Gentle, Next;
    if run != [] {
      assert run[0] in run;
      StepStaysGentle(s, run[0]);
      RunStaysGentle(Next(s, run[0]), run[1..]);
    }
  }

  /** Over any run from the start without a neglecting step, shutdowns included: once no worker can move,
      every accepted runnable has been executed or discarded, and without an immediate shutdown all have
      been executed. */
  lemma NothingLeftUnseen(n: nat, maxItems: nat, run: seq<Action>)
    requires RunFrom(Start(n, maxItems), run).Some? && !Neglectful(Start(n, maxItems), run)
    requires Stalled(RunFrom(Start(n, maxItems), run).value)
    ensures var s := RunFrom(Start(n, maxItems), run).value;
            && multiset(s.accepted) == multiset(s.executed) + multiset(s.discarded)
            && (Shutdown(2) !in run ==> multiset(s.accepted) == multiset(s.executed))
  {
    var start := Start(n, maxItems);
    var s := RunFrom(start, run).value;
    assert AllTended(start) && Gentle(start);
    StartInv(n, maxItems);
    if Shutdown(2) !in run {
      RunStaysGentle(start, run);
    }
    hide Start, RunFrom, AllTended, Pending, InFlight, Neglectful;
    RunKeepsTended(start, run);
    RunKeepsInv(start, run);
    StalledTended(s);
    NothingInHand(s.workers);
    assert Conserved(s);
  }

  /** No worker will take another step. */
  ghost predicate AllDead(s: Pool) {
    PoolOK(s) && forall w :: 0 <= w < |s.workers| ==> s.workers[w].Dead?
  }

  lemma DeadStep(s: Pool, a: Action, q: nat, r: Ticket)
    requires AllDead(s) && Enabled(s, a) && q < |s.queues| && r in s.queues[q].items
    ensures var t := Next(s, a);
            AllDead(t) && q < |t.queues| && r in t.queues[q].items
  {
    if a.AddTo? {
      assert Next(s, a).queues[q].items == s.queues[q].items || Next(s, a).queues[q].items[..|s.queues[q].items|] ==
          s.queues[q].items;
    }
  }

  /** What is in a queue once all workers are dead stays there for ever. */
  lemma {:induction false} AbandonedForEver(s: Pool, run: seq<Action>, q: nat, r: Ticket)
    requires AllDead(s) && RunFrom(s, run).Some? && q < |s.queues| && r in s.queues[q].items
    ensures var t := RunFrom(s, run).value;
            AllDead(t) && q < |t.queues| && r in t.queues[q].items
    decreases |run|
  {
    hide AllDead, Next;
    if run != [] {
      DeadStep(s, run[0], q, r);
      AbandonedForEver(Next(s, run[0]), run[1..], q, r);
    }
  }
}
