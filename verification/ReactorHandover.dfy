/**
 Accepted connections on their way from the accept loop to the reactor threads. Each ring queue appears
 through its FIFO specification, and a connection is the number of its accept.
 */
module ReactorHandover {
  import opened Words
  import opened Sums
  import ReactorThread

  const BATCH_SIZE := ReactorThread.BATCH_SIZE

  type Id = nat

  datatype ThreadState = ThreadState(
    queue: seq<Id>,       // accept_queue
    batch: seq<Id>,       // popped, not yet looked at
    table: seq<Id>,       // connections[], oldest first
    rejected: seq<Id>,    // closed because they could not be set up
    closed: seq<Id>,      // closed from the table
    total: nat,           // total_connections
    active: int,          // active_connections
    // history
    arrived: seq<Id>,
    served: seq<Id>)

  datatype Hand = Empty | Holding(id: Id)

  datatype State = State(
    accepted: nat,
    hand: Hand,
    refused: seq<Id>,     // closed by the accept loop
    nextThread: uint32,
    threads: seq<ThreadState>)

  datatype Action =
    | Accept
    | Dispatch
    | TakeBatch(t: nat)
    | SetUp(t: nat, ok: bool)
    | CloseFromTable(t: nat, i: nat)

  const IdleThread := ThreadState([], [], [], [], [], 0, 0, [], [])

  function Initial(threads: nat): State {
    State(0, Empty, [], 0, seq(threads, _ => IdleThread))
  }

  predicate Enabled(s: State, a: Action) {
    match a
    case Accept => s.hand.Empty?
    case Dispatch => s.hand.Holding? && s.threads != []
    case TakeBatch(t) => t < |s.threads| && s.threads[t].batch == []
    case SetUp(t, _) => t < |s.threads| && s.threads[t].batch != []
    case CloseFromTable(t, i) => t < |s.threads| && i < |s.threads[t].table|
  }

  function Next(s: State, a: Action): State
    requires Enabled(s, a)
  {
    match a
    case Accept => s.(accepted := s.accepted + 1, hand := Holding(s.accepted))
    case Dispatch =>
      var t := s.nextThread % |s.threads|;
      var th := s.threads[t];
      var id := s.hand.id;
      var s' := s.(hand := Empty, nextThread := Add(s.nextThread, 1));
      if |th.queue| >= RING_QUEUE_SIZE then s'.(refused := s.refused + [id])
      else s'.(threads := s.threads[t := th.(queue := th.queue + [id], arrived := th.arrived + [id])])
    case TakeBatch(t) =>
      var th := s.threads[t];
      var n := Min(BATCH_SIZE, |th.queue|);
      s.(threads := s.threads[t := th.(batch := th.queue[..n], queue := th.queue[n..])])
    case SetUp(t, ok) =>
      var th := s.threads[t];
      var th1 := th.(batch := th.batch[1..], served := th.served + [th.batch[0]]);
      s.(threads := s.threads[t :=
        if ok then th1.(table := th.table + [th.batch[0]], total := th.total + 1, active := th.active + 1)
        else th1.(rejected := th.rejected + [th.batch[0]])])
    case CloseFromTable(t, i) =>
      var th := s.threads[t];
      s.(threads := s.threads[t := th.(
        table := th.table[..i] + th.table[i + 1..],
        closed := th.closed + [th.table[i]],
        active := th.active - 1)])
  }

  function Count(ids: seq<Id>, id: Id): nat {
    multiset(ids)[id]
  }

  lemma CountConcat(a: seq<Id>, b: seq<Id>, id: Id)
    ensures Count(a + b, id) == Count(a, id) + Count(b, id)
  {
  }

  lemma CountOne(x: Id, id: Id)
    ensures Count([x], id) == if x == id then 1 else 0
  {
  }

  /** How often a connection occurs among what one thread holds or has disposed of. */
  function Held(th: ThreadState, id: Id): nat {
    Count(th.queue, id) + Count(th.batch, id) + Count(th.table, id) + Count(th.rejected, id) + Count(th.closed, id)
  }

  function HeldByAll(threads: seq<ThreadState>, id: Id): nat {
    Sum((th: ThreadState) => Held(th, id), threads)
  }

  /** How many places a connection is in. */
  function Places(s: State, id: Id): nat {
    (if s.hand == Holding(id) then 1 else 0) + Count(s.refused, id) + HeldByAll(s.threads, id)
  }

  ghost predicate Inv(s: State) {
    && (forall id: Id :: Places(s, id) == if id < s.accepted then 1 else 0)
    && (forall t :: 0 <= t < |s.threads| ==> ThreadInv(s.threads[t]))
  }

  predicate ThreadInv(th: ThreadState) {
    && |th.queue| <= RING_QUEUE_SIZE
    && |th.batch| <= BATCH_SIZE
    && th.active == |th.table|
    && th.total == th.active + |th.closed|
    && th.arrived == th.served + th.batch + th.queue
  }

  lemma InitialInv(threads: nat)
    ensures Inv(Initial(threads))
  {
    forall id: Id
      ensures Places(Initial(threads), id) == 0
    {
      SumZero((th: ThreadState) => Held(th, id), Initial(threads).threads);
    }
  }

  lemma HeldUpdate(threads: seq<ThreadState>, t: nat, th: ThreadState, id: Id)
    requires t < |threads|
    ensures HeldByAll(threads[t := th], id) + Held(threads[t], id) == HeldByAll(threads, id) + Held(th, id)
  {
    SumUpdate((x: ThreadState) => Held(x, id), threads, t, th);
  }

  predicate InThread(a: Action) {
    a.TakeBatch? || a.SetUp? || a.CloseFromTable?
  }

  lemma BatchHeld(s: State, t: nat, id: Id)
    requires Enabled(s, TakeBatch(t))
    ensures Held(Next(s, TakeBatch(t)).threads[t], id) == Held(s.threads[t], id)
  {
    var th := s.threads[t];
    var n := Min(BATCH_SIZE, |th.queue|);
    assert th.queue == th.queue[..n] + th.queue[n..];
    CountConcat(th.queue[..n], th.queue[n..], id);
  }

  lemma SetUpHeld(s: State, t: nat, ok: bool, id: Id)
    requires Enabled(s, SetUp(t, ok))
    ensures Held(Next(s, SetUp(t, ok)).threads[t], id) == Held(s.threads[t], id)
  {
    var th := s.threads[t];
    assert th.batch == [th.batch[0]] + th.batch[1..];
    CountConcat([th.batch[0]], th.batch[1..], id);
    CountConcat(th.table, [th.batch[0]], id);
    CountConcat(th.rejected, [th.batch[0]], id);
  }

  lemma CloseHeld(s: State, t: nat, i: nat, id: Id)
    requires Enabled(s, CloseFromTable(t, i))
    ensures Held(Next(s, CloseFromTable(t, i)).threads[t], id) == Held(s.threads[t], id)
  {
    var th := s.threads[t];
    assert th.table == th.table[..i] + ([th.table[i]] + th.table[i + 1..]);
    CountConcat(th.table[..i], [th.table[i]] + th.table[i + 1..], id);
    CountConcat([th.table[i]], th.table[i + 1..], id);
    CountConcat(th.table[..i], th.table[i + 1..], id);
    CountConcat(th.closed, [th.table[i]], id);
  }

  /** Within a thread a connection is only moved. */
  lemma ThreadActionPlaces(s: State, a: Action, id: Id)
    requires Enabled(s, a) && InThread(a)
    ensures Places(Next(s, a), id) == Places(s, id)
  {
    match a {
      case TakeBatch(t) => BatchHeld(s, t, id);
      case SetUp(t, ok) => SetUpHeld(s, t, ok, id);
      case CloseFromTable(t, i) => CloseHeld(s, t, i, id);
    }
    HeldUpdate(s.threads, a.t, Next(s, a).threads[a.t], id);
  }

  lemma ThreadActionInv(s: State, a: Action)
    requires Enabled(s, a) && InThread(a) && ThreadInv(s.threads[a.t])
    ensures ThreadInv(Next(s, a).threads[a.t])
  {
    var th := s.threads[a.t];
    match a
    case TakeBatch(_) =>
      assert th.queue == th.queue[..Min(BATCH_SIZE, |th.queue|)] + th.queue[Min(BATCH_SIZE, |th.queue|)..];
    case SetUp(_, _) =>
      assert th.batch == [th.batch[0]] + th.batch[1..];
    case CloseFromTable(_, _) =>
  }

  lemma DispatchPlaces(s: State, id: Id)
    requires Enabled(s, Dispatch)
    ensures Places(Next(s, Dispatch), id) == Places(s, id)
  {
    var t := s.nextThread % |s.threads|;
    var th, x, s' := s.threads[t], s.hand.id, Next(s, Dispatch);
    CountOne(x, id);
    if |th.queue| >= RING_QUEUE_SIZE {
      CountConcat(s.refused, [x], id);
    } else {
      CountConcat(th.queue, [x], id);
      HeldUpdate(s.threads, t, s'.threads[t], id);
    }
  }

  lemma NextInv(s: State, a: Action)
    requires Inv(s) && Enabled(s, a)
    ensures Inv(Next(s, a))
  {
    var s' := Next(s, a);
    if InThread(a) {
      ThreadActionInv(s, a);
    }
    forall id: Id
      ensures Places(s', id) == if id < s'.accepted then 1 else 0
    {
      assert Places(s, id) == if id < s.accepted then 1 else 0;
      if a.Dispatch? {
        DispatchPlaces(s, id);
      } else if InThread(a) {
        ThreadActionPlaces(s, a, id);
      }
    }
  }

  ghost predicate Run(states: seq<State>, actions: seq<Action>) {
    && |states| == |actions| + 1
    && (exists threads: nat :: states[0] == Initial(threads))
    && (forall i :: 0 <= i < |actions| ==> Enabled(states[i], actions[i]) && states[i + 1] == Next(states[i], actions[i]))
  }

  lemma {:induction false} RunInv(states: seq<State>, actions: seq<Action>, i: nat)
    requires Run(states, actions) && i < |states|
    ensures Inv(states[i])
    decreases i
  {
    if i == 0 {
      var threads: nat :| states[0] == Initial(threads);
      InitialInv(threads);
    } else {
      RunInv(states, actions, i - 1);
      NextInv(states[i - 1], actions[i - 1]);
      assert states[i] == Next(states[i - 1], actions[i - 1]);
    }
  }

  /**
   In every run each accepted connection is in exactly one place: in the accept loop's hand, refused by it,
   or with one thread in its queue, its batch, its table, its rejects or its closed connections, once.
   */
  lemma EveryConnectionIsInOnePlace(states: seq<State>, actions: seq<Action>, i: nat, id: Id)
    requires Run(states, actions) && i < |states|
    ensures Places(states[i], id) == if id < states[i].accepted then 1 else 0
  {
    RunInv(states, actions, i);
  }

  /** The statistics of every thread describe its table, and connections are served in the order they were dispatched. */
  lemma CountersAndOrder(states: seq<State>, actions: seq<Action>, i: nat, t: nat)
    requires Run(states, actions) && i < |states| && t < |states[i].threads|
    ensures
      var th := states[i].threads[t];
      && th.active == |th.table|
      && th.total == th.active + |th.closed|
      && th.served <= th.arrived
  {
    RunInv(states, actions, i);
    var th := states[i].threads[t];
    assert ThreadInv(th);
    assert th.arrived == th.served + (th.batch + th.queue);
  }
}
