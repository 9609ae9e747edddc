/** What becomes of each connection on its way to a reactor thread, and why. */
module HandoverOutcomes {
  import opened Words
  import opened ReactorHandover

  /** The accept loop hands connections over in the order of their acceptance, one at a time. */
  ghost predicate DispatchInv(s: State) {
    && (s.hand.Holding? ==> s.accepted == s.hand.id + 1)
    && s.nextThread == Wrap(if s.hand.Holding? then s.hand.id else s.accepted)
    && AllDispatched(s, s.refused)
    && (forall t :: 0 <= t < |s.threads| ==> Arrivals(s, s.threads[t].arrived))
  }

  /** What arrived at a thread was dispatched, and arrived once. */
  ghost predicate Arrivals(s: State, ids: seq<Id>) {
    AllDispatched(s, ids) && NoRepeats(ids)
  }

  predicate NoRepeats(ids: seq<Id>) {
    forall a, b :: 0 <= a < b < |ids| ==> ids[a] != ids[b]
  }

  ghost predicate AllDispatched(s: State, ids: seq<Id>) {
    forall id :: id in ids ==> Dispatched(s, id)
  }

  predicate Dispatched(s: State, id: Id) {
    id < s.accepted && s.hand != Holding(id)
  }

  /** Only a dispatch adds to what arrived, and only the connection in hand, to the selected thread. */
  lemma ArrivesByDispatch(s: State, a: Action, t: nat)
    requires Enabled(s, a) && t < |s.threads|
    ensures |Next(s, a).threads| == |s.threads|
    ensures
      var th, th' := s.threads[t], Next(s, a).threads[t];
      th'.arrived ==
        if a.Dispatch? && t == s.nextThread % |s.threads| && |th.queue| < RING_QUEUE_SIZE
        then th.arrived + [s.hand.id] else th.arrived
  {
  }

  lemma NextArrivals(s: State, a: Action, t: nat)
    requires Enabled(s, a) && DispatchInv(s) && t < |s.threads|
    ensures Arrivals(Next(s, a), Next(s, a).threads[t].arrived)
  {
    ArrivesByDispatch(s, a, t);
    assert Arrivals(s, s.threads[t].arrived);
    StillDispatched(s, a, s.threads[t].arrived);
    if a.Dispatch? {
      assert !Dispatched(s, s.hand.id);
      OneMore(s.threads[t].arrived, s.hand.id);
    }
  }

  lemma OneMore(ids: seq<Id>, id: Id)
    requires NoRepeats(ids) && id !in ids
    ensures NoRepeats(ids + [id])
  {
  }

  lemma StillDispatched(s: State, a: Action, ids: seq<Id>)
    requires Enabled(s, a) && DispatchInv(s) && AllDispatched(s, ids)
    ensures AllDispatched(Next(s, a), ids)
    ensures a.Dispatch? ==> AllDispatched(Next(s, a), ids + [s.hand.id])
  {
  }

  lemma NextDispatchInv(s: State, a: Action)
    requires Enabled(s, a) && DispatchInv(s)
    ensures DispatchInv(Next(s, a))
  {
    var s' := Next(s, a);
    StillDispatched(s, a, s.refused);
    if a.Dispatch? {
      WrapAdd(s.hand.id, 1);
    }
    forall t | 0 <= t < |s'.threads|
      ensures Arrivals(s', s'.threads[t].arrived)
    {
      NextArrivals(s, a, t);
    }
  }

  lemma {:induction false} RunDispatchInv(states: seq<State>, actions: seq<Action>, i: nat)
    requires Run(states, actions) && i < |states|
    ensures DispatchInv(states[i])
    decreases i
  {
    if i == 0 {
      var threads: nat :| states[0] == Initial(threads);
    } else {
      RunDispatchInv(states, actions, i - 1);
      NextDispatchInv(states[i - 1], actions[i - 1]);
      assert states[i] == Next(states[i - 1], actions[i - 1]);
    }
  }

  /** The thread that connection id is meant for. */
  function Target(s: State, id: Id): nat
    requires s.threads != []
  {
    Wrap(id) % |s.threads|
  }

  /** Action j dispatched id: the queue of its thread was full, or not. */
  ghost predicate DispatchedAt(states: seq<State>, actions: seq<Action>, j: nat, id: Id, full: bool) {
    && j < |actions| && j < |states|
    && actions[j].Dispatch? && states[j].hand == Holding(id) && states[j].threads != []
    && (full <==> |states[j].threads[Target(states[j], id)].queue| == RING_QUEUE_SIZE)
  }

  /** Where a dispatched connection went: refused if the queue was full, else into that queue and no other. */
  ghost predicate Outcome(s: State, id: Id, full: bool) {
    && s.threads != []
    && (id in s.refused <==> full)
    && (forall t :: 0 <= t < |s.threads| ==> (id in s.threads[t].arrived <==> t == Target(s, id) && !full))
  }

  /** The dispatch itself. */
  lemma DispatchDecides(s: State, full: bool)
    requires Enabled(s, Dispatch) && DispatchInv(s)
    requires full <==> |s.threads[Target(s, s.hand.id)].queue| >= RING_QUEUE_SIZE
    ensures Outcome(Next(s, Dispatch), s.hand.id, full)
  {
    var s' := Next(s, Dispatch);
    forall t | 0 <= t < |s'.threads|
      ensures s.hand.id in s'.threads[t].arrived <==> t == Target(s', s.hand.id) && !full
    {
      ArrivesByDispatch(s, Dispatch, t);
      assert Arrivals(s, s.threads[t].arrived);
    }
  }

  /** No later action changes where a dispatched connection went. */
  lemma OutcomeStays(s: State, a: Action, id: Id, full: bool)
    requires Enabled(s, a) && Dispatched(s, id) && Outcome(s, id, full)
    ensures Outcome(Next(s, a), id, full)
  {
  }

  /**
   In every run a connection is refused exactly if the ring queue of thread Wrap(id) % n held
   RING_QUEUE_SIZE connections when it was dispatched; otherwise it arrived in that queue, and in no other.
   */
  lemma {:induction false} RefusedIffItsQueueWasFull(states: seq<State>, actions: seq<Action>, i: nat, id: Id)
    requires Run(states, actions) && i < |states| && Dispatched(states[i], id)
    ensures exists j: nat, full: bool :: j < i && DispatchedAt(states, actions, j, id, full) && Outcome(states[i], id, full)
    decreases i
  {
    if i == 0 {
      assert false;
    } else {
      var s, a := states[i - 1], actions[i - 1];
      assert Enabled(s, a) && states[i] == Next(s, a);
      RunDispatchInv(states, actions, i - 1);
      if Dispatched(s, id) {
        RefusedIffItsQueueWasFull(states, actions, i - 1, id);
        var j: nat, full: bool :| j < i - 1 && DispatchedAt(states, actions, j, id, full) && Outcome(s, id, full);
        OutcomeStays(s, a, id, full);
      } else {
        assert a.Dispatch? && s.hand == Holding(id);
        var full := |s.threads[Target(s, id)].queue| >= RING_QUEUE_SIZE;
        RunInv(states, actions, i - 1);
        assert ThreadInv(s.threads[Target(s, id)]);
        DispatchDecides(s, full);
        assert DispatchedAt(states, actions, i - 1, id, full);
      }
    }
  }

  /** Every action takes its connection one place further, and only that one. */
  lemma ActionsMoveOn(s: State, a: Action)
    requires Enabled(s, a)
    ensures
      var s' := Next(s, a);
      match a
      case Accept => s'.hand == Holding(s.accepted) && s'.accepted == s.accepted + 1 && s'.threads == s.threads
      case Dispatch => s'.hand.Empty? && s'.accepted == s.accepted
      case TakeBatch(t) => s.threads[t].queue != [] ==> s'.threads[t].batch != []
      case SetUp(t, _) =>
        var th, th' := s.threads[t], s'.threads[t];
        th.batch == [th.batch[0]] + th'.batch && th'.served == th.served + [th.batch[0]]
      case CloseFromTable(t, i) =>
        var th, th' := s.threads[t], s'.threads[t];
        && th'.closed == th.closed + [th.table[i]]
        && multiset(th.table) == multiset(th'.table) + multiset{th.table[i]}
  {
    if a.CloseFromTable? {
      var table := s.threads[a.t].table;
      assert table == table[..a.i] + [table[a.i]] + table[a.i + 1..];
    }
  }

  // ---- inside a thread ----

  /** A batch is the front of the queue, as many as there are but at most 64; nothing else changes. */
  lemma BatchIsTheFrontOfTheQueue(s: State, t: nat)
    requires Enabled(s, TakeBatch(t))
    ensures
      var th, th', s' := s.threads[t], Next(s, TakeBatch(t)).threads[t], Next(s, TakeBatch(t));
      && th'.batch + th'.queue == th.queue
      && |th'.batch| == (if |th.queue| < 64 then |th.queue| else 64)
      && th' == th.(batch := th'.batch, queue := th'.queue)
      && s' == s.(threads := s.threads[t := th'])
  {
  }

  /** Action j set connection id up in thread t, successfully or not. */
  ghost predicate SetUpAt(states: seq<State>, actions: seq<Action>, j: nat, t: nat, id: Id, ok: bool) {
    && j < |actions| && j < |states| && actions[j] == SetUp(t, ok)
    && t < |states[j].threads| && states[j].threads[t].batch != [] && states[j].threads[t].batch[0] == id
  }

  /** A connection that was looked at is or was in the table exactly if its setup succeeded, else it was rejected. */
  predicate SetUpOutcome(th: ThreadState, id: Id, ok: bool) {
    && id in th.served
    && (id in th.table || id in th.closed <==> ok)
    && (id in th.rejected <==> !ok)
  }

  /** Only what was served is in a table, among the rejected or among the closed. */
  ghost predicate ServedFirst(th: ThreadState) {
    forall id :: id in th.table || id in th.rejected || id in th.closed ==> id in th.served
  }

  lemma NextServedFirst(s: State, a: Action)
    requires Enabled(s, a) && forall t :: 0 <= t < |s.threads| ==> ServedFirst(s.threads[t])
    ensures |Next(s, a).threads| == |s.threads|
    ensures forall t :: 0 <= t < |s.threads| ==> ServedFirst(Next(s, a).threads[t])
  {
    forall t | 0 <= t < |s.threads|
      ensures ServedFirst(Next(s, a).threads[t])
    {
      assert ServedFirst(s.threads[t]);
      if (a.SetUp? || a.CloseFromTable?) && a.t == t {
        StillServedFirst(s, a);
      } else {
        RecordsStay(s, a, t);
      }
    }
  }

  lemma StillServedFirst(s: State, a: Action)
    requires Enabled(s, a) && (a.SetUp? || a.CloseFromTable?) && ServedFirst(s.threads[a.t])
    ensures |Next(s, a).threads| == |s.threads| && ServedFirst(Next(s, a).threads[a.t])
  {
    var th, th' := s.threads[a.t], Next(s, a).threads[a.t];
    match a
    case SetUp(_, _) =>
      assert th'.served == th.served + [th.batch[0]];
      assert forall id :: id in th'.served <==> id in th.served || id == th.batch[0];
    case CloseFromTable(_, i) =>
      assert th.table[i] in th.table;
      assert th'.closed == th.closed + [th.table[i]];
  }

  lemma {:induction false} RunServedFirst(states: seq<State>, actions: seq<Action>, i: nat)
    requires Run(states, actions) && i < |states|
    ensures forall t :: 0 <= t < |states[i].threads| ==> ServedFirst(states[i].threads[t])
    decreases i
  {
    if i == 0 {
      var threads: nat :| states[0] == Initial(threads);
    } else {
      RunServedFirst(states, actions, i - 1);
      NextServedFirst(states[i - 1], actions[i - 1]);
      assert states[i] == Next(states[i - 1], actions[i - 1]);
    }
  }

  lemma SetUpDecides(s: State, t: nat, ok: bool)
    requires Enabled(s, SetUp(t, ok)) && ServedFirst(s.threads[t]) && s.threads[t].batch[0] !in s.threads[t].served
    ensures SetUpOutcome(Next(s, SetUp(t, ok)).threads[t], s.threads[t].batch[0], ok)
  {
    var x := s.threads[t].batch[0];
    assert Next(s, SetUp(t, ok)).threads[t].served[|s.threads[t].served|] == x;
    if ok {
      assert Next(s, SetUp(t, ok)).threads[t].table[|s.threads[t].table|] == x;
    }
  }

  lemma SetUpOther(th: ThreadState, th': ThreadState, x: Id, id: Id, good: bool)
    requires x != id && th'.served == th.served + [x] && th'.closed == th.closed
    requires th'.table == (if good then th.table + [x] else th.table)
    requires th'.rejected == (if good then th.rejected else th.rejected + [x])
    ensures id in th'.served <==> id in th.served
    ensures id in th'.table <==> id in th.table
    ensures id in th'.rejected <==> id in th.rejected
  {
  }

  lemma SetUpStays(s: State, a: Action, t: nat, id: Id, ok: bool)
    requires Enabled(s, a) && t < |s.threads| && SetUpOutcome(s.threads[t], id, ok)
    requires a.SetUp? && a.t == t ==> s.threads[t].batch[0] != id
    ensures SetUpOutcome(Next(s, a).threads[t], id, ok)
  {
    var th, th' := s.threads[t], Next(s, a).threads[t];
    if a.SetUp? && a.t == t {
      SetUpOther(th, th', th.batch[0], id, a.ok);
    } else if a.CloseFromTable? && a.t == t {
      var i := a.i;
      assert th.table == th.table[..i] + [th.table[i]] + th.table[i + 1..];
      assert th'.closed == th.closed + [th.table[i]];
      assert id in th'.table || id in th'.closed <==> id in th.table || id in th.closed;
    } else {
      RecordsStay(s, a, t);
    }
  }

  lemma RecordsStay(s: State, a: Action, t: nat)
    requires Enabled(s, a) && t < |s.threads|
    requires (a.SetUp? || a.CloseFromTable?) ==> a.t != t
    ensures |Next(s, a).threads| == |s.threads|
    ensures
      var th, th' := s.threads[t], Next(s, a).threads[t];
      && th'.table == th.table && th'.closed == th.closed
      && th'.rejected == th.rejected && th'.served == th.served
  {
  }

  lemma NextInBatchIsNew(states: seq<State>, actions: seq<Action>, i: nat, t: nat)
    requires Run(states, actions) && i < |states| && t < |states[i].threads| && states[i].threads[t].batch != []
    ensures states[i].threads[t].batch[0] !in states[i].threads[t].served
  {
    var th := states[i].threads[t];
    RunInv(states, actions, i);
    assert ThreadInv(th);
    RunDispatchInv(states, actions, i);
    assert Arrivals(states[i], th.arrived);
    assert th.arrived[|th.served|] == th.batch[0];
    assert forall k :: 0 <= k < |th.served| ==> th.arrived[k] == th.served[k];
  }

  /**
   In every run, a connection that a thread has looked at entered its table exactly if its setup
   succeeded, and was rejected otherwise.
   */
  lemma {:induction false} InTheTableIffSetUp(states: seq<State>, actions: seq<Action>, i: nat, t: nat, id: Id)
    requires Run(states, actions) && i < |states| && t < |states[i].threads| && id in states[i].threads[t].served
    ensures exists j: nat, ok: bool :: j < i && SetUpAt(states, actions, j, t, id, ok) && SetUpOutcome(states[i].threads[t], id, ok)
    decreases i
  {
    if i == 0 {
      assert false;
    } else {
      var s, a := states[i - 1], actions[i - 1];
      assert Enabled(s, a) && states[i] == Next(s, a);
      if a.SetUp? && a.t == t {
        NextInBatchIsNew(states, actions, i - 1, t);
      }
      if id in s.threads[t].served {
        InTheTableIffSetUp(states, actions, i - 1, t, id);
        var j: nat, ok: bool :|
          j < i - 1 && SetUpAt(states, actions, j, t, id, ok) && SetUpOutcome(s.threads[t], id, ok);
        SetUpStays(s, a, t, id, ok);
      } else {
        assert a.SetUp? && a.t == t && s.threads[t].batch[0] == id;
        RunServedFirst(states, actions, i - 1);
        SetUpDecides(s, t, a.ok);
        assert SetUpAt(states, actions, i - 1, t, id, a.ok);
      }
    }
  }
}
