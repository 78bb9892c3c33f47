/** Message queues and their registry. The registry's lock and each queue's lock are taken in
    opposite orders by sending and by closing, so the locks are part of the model. */
module Messages {
  import opened Wrappers
  import opened ThreadPool

  type Thread = nat
  type Message = Ticket

  // ---- The classes ---------------------------------------------------------------------------

  class MessageQueue {
    const threadID: Thread
    const maxItems: nat
    var queue: seq<Message>
    var canAdd: bool
    var hasMessage: bool

    function State(): QueueState
      reads this
    {
      QueueState(queue, canAdd, hasMessage)
    }

    constructor (threadID: Thread, maxItems: nat)
      ensures State() == EMPTY_QUEUE && this.threadID == threadID && this.maxItems == maxItems
    {
      this.threadID := threadID;
      this.maxItems := maxItems;
      queue, canAdd, hasMessage := [], true, false;
    }

    method Add(m: Message) returns (ok: bool)
      modifies this
      ensures (State(), ok) == Added(old(State()), m, maxItems)
    {
      if !canAdd {
        return false;
      }
      if |queue| >= maxItems {
        return false;
      }
      queue := queue + [m];
      hasMessage := true;
      ok := true;
    }

    method Peek(caller: Thread) returns (m: Option<Message>)
      ensures m == if caller == threadID then Front(State()) else None
    {
      if threadID != caller {
        return None;
      }
      if queue == [] {
        return None;
      }
      m := Some(queue[0]);
    }

    method Poll(caller: Thread) returns (m: Option<Message>)
      modifies this
      ensures caller != threadID ==> m == None && unchanged(this)
      ensures caller == threadID ==> m == Front(old(State())) && State() == Polled(old(State()))
    {
      if threadID != caller {
        return None;
      }
      if queue == [] {
        return None;
      }
      m := Some(queue[0]);
      queue := queue[1..];
      if queue == [] {
        hasMessage := false;
      }
    }

    /** Only the first call has an effect. */
    method Invalidate(hub: Concurrent)
      modifies this, hub
      ensures old(canAdd) ==> State() == Invalidated(old(State())) && hub.mqs == old(hub.mqs) - {threadID}
      ensures !old(canAdd) ==> unchanged(this) && unchanged(hub)
    {
      if canAdd {
        canAdd := false;
        queue := [];
        hub.Unregister(this);
      }
    }
  }

  /** The registry part of `sConcurrent`. */
  class Concurrent {
    var mqs: map<Thread, MessageQueue>

    /** Every key is its queue's thread, so a thread has at most one queue, and only open queues
        are registered. */
    ghost predicate Valid()
      reads this, mqs.Values
    {
      forall t :: t in mqs ==> mqs[t].threadID == t && mqs[t].canAdd
    }

    constructor ()
      ensures Valid() && mqs == map[]
    {
      mqs := map[];
    }

    method CreateMessageQueue(threadID: Thread, maxItems: nat) returns (mq: MessageQueue?)
      requires Valid()
      modifies this
      ensures Valid()
      ensures mq == null <==> threadID in old(mqs)
      ensures mq == null ==> mqs == old(mqs)
      ensures mq != null ==>
        fresh(mq) && mq.State() == EMPTY_QUEUE && mq.maxItems == maxItems && mqs == old(mqs)[threadID := mq]
    {
      if threadID in mqs {
        return null;
      }
      mq := new MessageQueue(threadID, maxItems);
      mqs := mqs[mq.threadID := mq];
    }

    method GetMessageQueue(threadID: Thread) returns (mq: MessageQueue?)
      requires Valid()
      ensures mq != null <==> threadID in mqs
      ensures mq != null ==> mq.threadID == threadID && mq.canAdd
    {
      mq := if threadID in mqs then mqs[threadID] else null;
    }

    method QueueMessage(threadID: Thread, m: Message) returns (ok: bool)
      requires Valid()
      modifies mqs.Values
      ensures Valid()
      ensures threadID !in mqs ==> !ok
      ensures forall t :: t in mqs && t != threadID ==> mqs[t].State() == old(mqs[t].State())
      ensures threadID in mqs ==>
        (mqs[threadID].State(), ok) == Added(old(mqs[threadID].State()), m, mqs[threadID].maxItems)
    {
      if threadID !in mqs {
        return false;
      }
      ok := mqs[threadID].Add(m);
    }

    method Unregister(mq: MessageQueue)
      modifies this
      ensures mqs == old(mqs) - {mq.threadID}
    {
      mqs := mqs - {mq.threadID};
    }

    /** Closing a registered queue takes out that queue and no other. */
    method Close(mq: MessageQueue)
      requires Valid() && mq.threadID in mqs && mqs[mq.threadID] == mq
      modifies this, mq
      ensures Valid()
      ensures mqs == old(mqs) - {mq.threadID} && mq !in mqs.Values
    {
      mq.Invalidate(this);
    }
  }

  // ---- All interleavings -----------------------------------------------------------------------

  /** A queue with its lock and the history of what it took and gave out. */
  datatype Queue = Queue(
    threadID: Thread,
    maxItems: nat,
    state: QueueState,
    owner: Option<Thread>,
    accepted: seq<Message>,
    polled: seq<Message>)

  /** Where a thread is when it holds one lock and wants the other. */
  datatype Op =
    | Sending(q: nat, m: Message)   // _QueueMessage: has the registry's lock, wants the queue's
    | Closing(q: nat)               // Invalidate: has the queue's lock, wants the registry's

  datatype Hub = Hub(
    queues: seq<Queue>,
    mqs: map<Thread, nat>,
    mqsOwner: Option<Thread>,
    inside: map<Thread, Op>)

  datatype Action =
    | Create(t: Thread, threadID: Thread, maxItems: nat)
    | Send(t: Thread, threadID: Thread, m: Message)
    | FinishSend(t: Thread)
    | Add(t: Thread, q: nat, m: Message)
    | Poll(t: Thread, q: nat)
    | Close(t: Thread, q: nat)
    | FinishClose(t: Thread)

  const START := Hub([], map[], None, map[])

  predicate Free(h: Hub, q: nat) {
    q < |h.queues| && h.queues[q].owner.None?
  }

  /** A thread is where the action starts and the lock it takes there is free. */
  predicate Enabled(h: Hub, a: Action) {
    match a
    case Create(t, _, _) => t !in h.inside && h.mqsOwner.None?
    case Send(t, id, _) => t !in h.inside && h.mqsOwner.None? && (id in h.mqs ==> h.mqs[id] < |h.queues|)
    case FinishSend(t) => t in h.inside && h.inside[t].Sending? && Free(h, h.inside[t].q)
    case Add(t, q, _) => t !in h.inside && Free(h, q)
    case Poll(t, q) => t !in h.inside && Free(h, q)
    case Close(t, q) => t !in h.inside && Free(h, q)
    case FinishClose(t) =>
      t in h.inside && h.inside[t].Closing? && h.inside[t].q < |h.queues| && h.mqsOwner.None?
  }

  function WithAdded(q: Queue, m: Message): Queue {
    var (after, ok) := Added(q.state, m, q.maxItems);
    q.(state := after, accepted := q.accepted + if ok then [m] else [])
  }

  function WithPolled(q: Queue): Queue {
    q.(state := Polled(q.state), polled := q.polled + AsSeq(Front(q.state)))
  }

  function Next(h: Hub, a: Action): Hub
    requires Enabled(h, a)
  {
    match a
    case Create(_, id, maxItems) =>
      if id in h.mqs then h
      else h.(queues := h.queues + [Queue(id, maxItems, EMPTY_QUEUE, None, [], [])], mqs := h.mqs[id := |h.queues|])
    case Send(t, id, m) =>
      if id !in h.mqs then h else h.(mqsOwner := Some(t), inside := h.inside[t := Sending(h.mqs[id], m)])
    case FinishSend(t) =>
      var Sending(q, m) := h.inside[t];
      h.(queues := h.queues[q := WithAdded(h.queues[q], m)], mqsOwner := None, inside := h.inside - {t})
    case Add(_, q, m) => h.(queues := h.queues[q := WithAdded(h.queues[q], m)])
    case Poll(t, q) =>
      if t != h.queues[q].threadID then h else h.(queues := h.queues[q := WithPolled(h.queues[q])])
    case Close(t, q) =>
      if !h.queues[q].state.canAdd then h
      else h.(queues := h.queues[q := h.queues[q].(state := Invalidated(h.queues[q].state), owner := Some(t))],
              inside := h.inside[t := Op.Closing(q)])
    case FinishClose(t) =>
      var q := h.inside[t].q;
      h.(queues := h.queues[q := h.queues[q].(owner := None)], mqs := h.mqs - {h.queues[q].threadID},
         inside := h.inside - {t})
  }

  function RunFrom(h: Hub, run: seq<Action>): Option<Hub>
    decreases |run|
  {
    if run == [] then Some(h) else if Enabled(h, run[0]) then RunFrom(Next(h, run[0]), run[1..]) else None
  }

  // ---- What every step keeps -------------------------------------------------------------------

  /** An open queue holds exactly what it accepted and has not given out, in order, and its event is
      set exactly when it holds something. A closed queue is empty. */
  predicate QueueInv(q: Queue) {
    && q.polled <= q.accepted
    && (q.state.canAdd ==> q.accepted == q.polled + q.state.items && (q.state.signaled <==> q.state.items != []))
    && (!q.state.canAdd ==> q.state.items == [])
  }

  /** A queue is registered under its thread from its creation to the end of its closing. */
  predicate Registered(h: Hub, q: nat)
    requires q < |h.queues|
  {
    h.queues[q].threadID in h.mqs && h.mqs[h.queues[q].threadID] == q
  }

  ghost predicate QueuesInv(h: Hub) {
    forall q :: 0 <= q < |h.queues| ==> QueueInv(h.queues[q])
  }

  ghost predicate RegistryInv(h: Hub) {
    && (forall id :: id in h.mqs ==> h.mqs[id] < |h.queues| && h.queues[h.mqs[id]].threadID == id)
    && (forall q :: 0 <= q < |h.queues| ==>
          (Registered(h, q) <==> h.queues[q].state.canAdd || h.queues[q].owner.Some?))
  }

  /** A lock is held by exactly the thread that is between its two locks. */
  ghost predicate LocksInv(h: Hub) {
    && (forall t :: t in h.inside ==> h.inside[t].q < |h.queues|)
    && (forall t :: t in h.inside && h.inside[t].Sending? ==> h.mqsOwner == Some(t))
    && (h.mqsOwner.Some? ==> h.mqsOwner.value in h.inside && h.inside[h.mqsOwner.value].Sending?)
    && (forall t :: t in h.inside && h.inside[t].Closing? ==>
          h.queues[h.inside[t].q].owner == Some(t) && !h.queues[h.inside[t].q].state.canAdd)
    && (forall q :: 0 <= q < |h.queues| && h.queues[q].owner.Some? ==>
          h.queues[q].owner.value in h.inside && h.inside[h.queues[q].owner.value] == Op.Closing(q))
  }

  ghost predicate Inv(h: Hub) {
    QueuesInv(h) && RegistryInv(h) && LocksInv(h)
  }

  lemma AddedKeeps(q: Queue, m: Message)
    requires QueueInv(q)
    ensures QueueInv(WithAdded(q, m))
  {
  }

  lemma PolledKeeps(q: Queue)
    requires QueueInv(q)
    ensures QueueInv(WithPolled(q))
  {
    FrontAndRest(q.state);
  }

  lemma NextKeepsQueues(h: Hub, a: Action)
    requires Enabled(h, a) && QueuesInv(h)
    ensures QueuesInv(Next(h, a))
  {
    match a {
      case FinishSend(t) => AddedKeeps(h.queues[h.inside[t].q], h.inside[t].m);
      case Add(_, q, m) => AddedKeeps(h.queues[q], m);
      case Poll(_, q) => PolledKeeps(h.queues[q]);
      case _ =>
    }
  }

  /** Adding and polling change neither the lock nor what the registry depends on. */
  predicate SameHolder(q: Queue, q': Queue) {
    q'.owner == q.owner && q'.threadID == q.threadID && q'.state.canAdd == q.state.canAdd
  }

  lemma HolderKept(q: Queue, m: Message)
    ensures SameHolder(q, WithAdded(q, m)) && SameHolder(q, WithPolled(q))
  {
  }

  lemma HolderUpdate(h: Hub, q: nat, x: Queue)
    requires q < |h.queues| && SameHolder(h.queues[q], x)
    ensures LocksInv(h) ==> LocksInv(h.(queues := h.queues[q := x]))
    ensures RegistryInv(h) ==> RegistryInv(h.(queues := h.queues[q := x]))
  {
  }

  lemma AddKeepsHolders(h: Hub, q: nat, m: Message)
    requires q < |h.queues|
    ensures var h' := h.(queues := h.queues[q := WithAdded(h.queues[q], m)]);
            (LocksInv(h) ==> LocksInv(h')) && (RegistryInv(h) ==> RegistryInv(h'))
  {
    hide LocksInv, RegistryInv;
    HolderKept(h.queues[q], m);
    HolderUpdate(h, q, WithAdded(h.queues[q], m));
  }

  lemma PollKeepsHolders(h: Hub, q: nat)
    requires q < |h.queues|
    ensures var h' := h.(queues := h.queues[q := WithPolled(h.queues[q])]);
            (LocksInv(h) ==> LocksInv(h')) && (RegistryInv(h) ==> RegistryInv(h'))
  {
    hide LocksInv, RegistryInv;
    HolderKept(h.queues[q], 0);
    HolderUpdate(h, q, WithPolled(h.queues[q]));
  }

  lemma NextKeepsRegistry(h: Hub, a: Action)
    requires Enabled(h, a) && RegistryInv(h) && LocksInv(h)
    ensures RegistryInv(Next(h, a))
  {
    hide WithAdded, WithPolled;
    match a {
      case FinishSend(t) =>
        var Sending(q, m) := h.inside[t];
        AddKeepsHolders(h, q, m);
      case Add(_, q, m) => AddKeepsHolders(h, q, m);
      case Poll(t, q) => PollKeepsHolders(h, q);
      case Close(t, q) => CloseKeepsRegistry(h, t, q);
      case FinishClose(t) => FinishKeepsRegistry(h, t);
      case _ =>
    }
  }

  lemma CloseKeepsRegistry(h: Hub, t: Thread, q: nat)
    requires Enabled(h, Close(t, q)) && RegistryInv(h)
    ensures RegistryInv(Next(h, Close(t, q)))
  {
  }

  lemma FinishKeepsRegistry(h: Hub, t: Thread)
    requires Enabled(h, FinishClose(t)) && RegistryInv(h) && LocksInv(h)
    ensures RegistryInv(Next(h, FinishClose(t)))
  {
  }

  lemma NextKeepsLocks(h: Hub, a: Action)
    requires Enabled(h, a) && RegistryInv(h) && LocksInv(h)
    ensures LocksInv(Next(h, a))
  {
    hide WithAdded, WithPolled;
    match a {
      case FinishSend(t) => SendKeepsLocks(h, t);
      case Add(_, q, m) => AddKeepsHolders(h, q, m);
      case Poll(t, q) => PollKeepsHolders(h, q);
      case Close(t, q) => CloseKeepsLocks(h, t, q);
      case FinishClose(t) => FinishKeepsLocks(h, t);
      case _ =>
    }
  }

  lemma SendKeepsLocks(h: Hub, t: Thread)
    requires Enabled(h, FinishSend(t)) && LocksInv(h)
    ensures LocksInv(Next(h, FinishSend(t)))
  {
    hide WithAdded;
    HolderKept(h.queues[h.inside[t].q], h.inside[t].m);
  }

  lemma CloseKeepsLocks(h: Hub, t: Thread, q: nat)
    requires Enabled(h, Close(t, q)) && LocksInv(h)
    ensures LocksInv(Next(h, Close(t, q)))
  {
  }

  lemma FinishKeepsLocks(h: Hub, t: Thread)
    requires Enabled(h, FinishClose(t)) && LocksInv(h)
    ensures LocksInv(Next(h, FinishClose(t)))
  {
  }

  lemma NextKeepsInv(h: Hub, a: Action)
    requires Enabled(h, a) && Inv(h)
    ensures Inv(Next(h, a))
  {
    hide QueuesInv, RegistryInv, LocksInv;
    NextKeepsQueues(h, a);
    NextKeepsRegistry(h, a);
    NextKeepsLocks(h, a);
  }

  lemma {:induction false} RunKeepsInv(h: Hub, run: seq<Action>)
    requires Inv(h) && RunFrom(h, run).Some?
    ensures Inv(RunFrom(h, run).value)
    decreases |run|
  {
    if run != [] {
      NextKeepsInv(h, run[0]);
      RunKeepsInv(Next(h, run[0]), run[1..]);
    }
  }

  /** Over every interleaving: an open queue has given out a prefix of what it accepted and holds the
      rest, its event tells whether there is any, and it is the only queue registered for its thread. */
  lemma MessagesAreSafe(run: seq<Action>, q: nat, p: nat)
    requires RunFrom(START, run).Some?
    ensures var h := RunFrom(START, run).value;
            q < |h.queues| && h.queues[q].state.canAdd ==>
              && h.queues[q].polled + h.queues[q].state.items == h.queues[q].accepted
              && (h.queues[q].state.signaled <==> h.queues[q].state.items != [])
              && Registered(h, q)
              && (p < |h.queues| && h.queues[p].state.canAdd && h.queues[p].threadID == h.queues[q].threadID ==> p == q)
  {
    StartKeepsInv(run);
  }

  // ---- Who may do what -----------------------------------------------------------------------------

  /** The step takes a message from the queue: its own thread does, the first one. */
  predicate TakesOne(a: Action, x: Queue, y: Queue, q: nat) {
    a == Poll(x.threadID, q) && x.state.items != [] && y.polled == x.polled + [x.state.items[0]]
  }

  /** The step brings message `m`, by `Add` to the queue or for who is sending to it. */
  predicate Brings(h: Hub, a: Action, q: nat, m: Message) {
    (a.Add? && a.q == q && a.m == m) || (a.FinishSend? && a.t in h.inside && h.inside[a.t] == Sending(q, m))
  }

  /** Only its thread takes messages from a queue, one at a time from the front; only `Add` and sending to
      it bring one, at the end, while there is room and it is open; and only closing it closes it. */
  lemma EachStepTouches(h: Hub, a: Action, q: nat)
    requires Enabled(h, a) && LocksInv(h) && q < |h.queues|
    ensures q < |Next(h, a).queues|
    ensures var x, y := h.queues[q], Next(h, a).queues[q];
            && y.threadID == x.threadID && y.maxItems == x.maxItems
            && (y.polled == x.polled || TakesOne(a, x, y, q))
            && (y.accepted == x.accepted ||
                exists m :: Brings(h, a, q, m) && y.accepted == x.accepted + [m]
                            && x.state.canAdd && |x.state.items| < x.maxItems)
            && (y.state.canAdd == x.state.canAdd || (a.Close? && a.q == q && x.state.canAdd))
  {
    var x, y := h.queues[q], Next(h, a).queues[q];
    if a.FinishSend? && h.inside[a.t].q == q {
      assert y.accepted == x.accepted || Brings(h, a, q, h.inside[a.t].m);
    } else if a.Add? && a.q == q {
      assert y.accepted == x.accepted || Brings(h, a, q, a.m);
    }
  }

  /** What is sent to a thread goes to the queue registered for it, which is its own. */
  lemma SendsToAddressee(run: seq<Action>, t: Thread, id: Thread, m: Message)
    requires RunFrom(START, run).Some? && Enabled(RunFrom(START, run).value, Send(t, id, m))
    ensures var h := RunFrom(START, run).value;
            var h' := Next(h, Send(t, id, m));
            if id in h.mqs then
              && t in h'.inside && h'.inside[t].Sending? && h'.inside[t].m == m
              && h'.inside[t].q < |h.queues| && h.queues[h'.inside[t].q].threadID == id
            else h' == h
  {
    StartKeepsInv(run);
  }

  /** A thread that is not between its locks can always send, create, add, poll and close, unless another
      thread holds the lock. */
  lemma OutsidersMayStart(run: seq<Action>, t: Thread, id: Thread, m: Message, q: nat)
    requires RunFrom(START, run).Some? && t !in RunFrom(START, run).value.inside
    ensures var h := RunFrom(START, run).value;
            && (h.mqsOwner.None? <==> Enabled(h, Send(t, id, m)))
            && (q < |h.queues| && h.queues[q].owner.None? <==> Enabled(h, Add(t, q, m)))
            && (q < |h.queues| && h.queues[q].owner.None? <==> Enabled(h, Poll(t, q)))
  {
    StartKeepsInv(run);
  }

  // ---- Closed is for ever ----------------------------------------------------------------------

  predicate Closed(h: Hub, q: nat) {
    q < |h.queues| && !h.queues[q].state.canAdd && h.queues[q].state.items == []
  }

  /** A closed queue accepts nothing and gives out nothing, whatever happens later. */
  lemma {:induction false} NothingAfterClose(h: Hub, run: seq<Action>, q: nat)
    requires Closed(h, q) && RunFrom(h, run).Some?
    ensures var h' := RunFrom(h, run).value;
            Closed(h', q) && h'.queues[q].accepted == h.queues[q].accepted && h'.queues[q].polled == h.queues[q].polled
    decreases |run|
  {
    if run != [] {
      CloseKept(h, run[0], q);
      NothingAfterClose(Next(h, run[0]), run[1..], q);
    }
  }

  lemma CloseKept(h: Hub, a: Action, q: nat)
    requires Closed(h, q) && Enabled(h, a)
    ensures var h' := Next(h, a);
            Closed(h', q) && h'.queues[q].accepted == h.queues[q].accepted && h'.queues[q].polled == h.queues[q].polled
  {
  }

  // ---- The two lock orders ---------------------------------------------------------------------

  /** Thread `t` sends to the queue that thread `u` is closing: each holds the lock the other wants. */
  predicate Deadlock(h: Hub, t: Thread, u: Thread, q: nat) {
    && t in h.inside && h.inside[t].Sending? && h.inside[t].q == q && h.mqsOwner == Some(t)
    && u in h.inside && h.inside[u] == Op.Closing(q)
    && q < |h.queues| && h.queues[q].owner == Some(u)
  }

  predicate CanMove(h: Hub, t: Thread) {
    Enabled(h, FinishSend(t)) || Enabled(h, FinishClose(t))
  }

  /** In a reachable state with threads between their two locks, none of them can move exactly when
      a sender and a closer have met on one queue. */
  lemma StuckIsDeadlock(run: seq<Action>)
    requires RunFrom(START, run).Some? && RunFrom(START, run).value.inside != map[]
    ensures var h := RunFrom(START, run).value;
            (forall t :: t in h.inside ==> !CanMove(h, t)) <==> exists t, u, q :: Deadlock(h, t, u, q)
  {
    hide *;
    StartKeepsInv(run);
    StuckMeans(RunFrom(START, run).value);
  }

  lemma StartKeepsInv(run: seq<Action>)
    requires RunFrom(START, run).Some?
    ensures var h := RunFrom(START, run).value;
            QueuesInv(h) && RegistryInv(h) && LocksInv(h)
  {
    RunKeepsInv(START, run);
  }

  lemma StuckMeans(h: Hub)
    requires LocksInv(h) && h.inside != map[]
    ensures (forall t :: t in h.inside ==> !CanMove(h, t)) <==> exists t, u, q :: Deadlock(h, t, u, q)
  {
    if h.mqsOwner.Some? {
      var t := h.mqsOwner.value;
      var q := h.inside[t].q;
      if h.queues[q].owner.Some? {
        assert Deadlock(h, t, h.queues[q].owner.value, q);
      } else {
        assert CanMove(h, t);
      }
    } else {
      var t :| t in h.inside;
      assert CanMove(h, t);
    }
  }

  /** Nothing ends a deadlock: from then on no queue is created and no message sent. */
  lemma {:induction false} DeadlockIsForEver(h: Hub, run: seq<Action>, t: Thread, u: Thread, q: nat)
    requires Inv(h) && Deadlock(h, t, u, q) && RunFrom(h, run).Some?
    ensures Deadlock(RunFrom(h, run).value, t, u, q)
    ensures forall a :: a in run ==> !a.Create? && !a.Send?
    decreases |run|
  {
    if run != [] {
      DeadlockKept(h, run[0], t, u, q);
      NextKeepsInv(h, run[0]);
      DeadlockIsForEver(Next(h, run[0]), run[1..], t, u, q);
    }
  }

  lemma DeadlockKept(h: Hub, a: Action, t: Thread, u: Thread, q: nat)
    requires LocksInv(h) && Deadlock(h, t, u, q) && Enabled(h, a)
    ensures !a.Create? && !a.Send? && Deadlock(Next(h, a), t, u, q)
  {
  }

  /** ... and three steps reach one. */
  lemma DeadlockIsReachable()
    ensures var end := RunFrom(START, [Create(0, 7, 4), Send(0, 7, 1), Close(7, 0)]);
            end.Some? && Deadlock(end.value, 0, 7, 0)
  {
    var h1 := Next(START, Create(0, 7, 4));
    var h2 := Next(h1, Send(0, 7, 1));
    var h3 := Next(h2, Close(7, 0));
    assert RunFrom(h3, []) == Some(h3);
    assert RunFrom(h2, [Close(7, 0)]) == Some(h3);
    assert [Send(0, 7, 1), Close(7, 0)][1..] == [Close(7, 0)];
    assert RunFrom(h1, [Send(0, 7, 1), Close(7, 0)]) == Some(h3);
    assert [Create(0, 7, 4), Send(0, 7, 1), Close(7, 0)][1..] == [Send(0, 7, 1), Close(7, 0)];
  }
}
