/** Every item whose push has finished is in its slot: stores are neither skipped nor forgotten. */
module RingStores {
  import opened Words
  import opened RingMachine
  import opened RingSafety
  import opened RingDelivery

  /** What a thread has stored of its own claim. */
  ghost predicate HasStored(l: Local, stored: set<nat>) {
    match l
    case Copying(op, _, base, _, done, _) => op.Producer() ==> forall p: nat :: base <= p < base + done ==> p in stored
    case Counting(op, base, n, _) => op.Producer() ==> forall p: nat :: base <= p < base + n ==> p in stored
    case Idle(Pushed(n, base)) => forall p: nat :: base <= p < base + n ==> p in stored
    case _ => true
  }

  /** A claimed position is stored, or some producer is still to store it. */
  ghost predicate Accounted(s: State, p: nat) {
    p in s.stored || exists t :: 0 <= t < |s.threads| && Unstored(s.threads[t], p)
  }

  ghost predicate StoresInv(s: State) {
    && Inv(s)
    && (forall t :: 0 <= t < |s.threads| ==> HasStored(s.threads[t], s.stored))
    && (forall p: nat :: p < s.T ==> Accounted(s, p))
  }

  lemma OwnStores(s: State, m: Move)
    requires ValidMove(s, m) && StoresInv(s) && NoAba(s, m)
    ensures HasStored(Next(s, m).threads[m.thread], Next(s, m).stored)
    ensures s.stored <= Next(s, m).stored
  {
    assert HasStored(s.threads[m.thread], s.stored);
    assert LocalInv(s.threads[m.thread], s.H, s.T, s.log);
  }

  lemma OthersStay(s: State, m: Move)
    requires ValidMove(s, m)
    ensures s.stored <= Next(s, m).stored && |Next(s, m).threads| == |s.threads|
    ensures forall t :: 0 <= t < |s.threads| && t != m.thread ==> Next(s, m).threads[t] == s.threads[t]
  {
  }

  /** A producer still to store a position either goes on to, or stores it now. */
  lemma StillAccounted(s: State, m: Move, p: nat)
    requires ValidMove(s, m) && Accounted(s, p)
    ensures Accounted(Next(s, m), p)
  {
    var s' := Next(s, m);
    OthersStay(s, m);
    if p !in s.stored {
      var t :| 0 <= t < |s.threads| && Unstored(s.threads[t], p);
      if t == m.thread {
        assert s' == CopyOne(s, t);
        CopyOneAccounts(s, t, p);
      } else {
        assert Unstored(s'.threads[t], p);
      }
    }
  }

  lemma CopyOneAccounts(s: State, t: nat, p: nat)
    requires t < |s.threads| && Unstored(s.threads[t], p)
    ensures Accounted(CopyOne(s, t), p)
  {
    var s' := CopyOne(s, t);
    assert p in s'.stored || Unstored(s'.threads[t], p);
  }

  lemma NewlyClaimed(s: State, m: Move, p: nat)
    requires ValidMove(s, m) && Inv(s) && NoAba(s, m) && s.T <= p < Next(s, m).T
    ensures Accounted(Next(s, m), p)
  {
    SuccessMeansUnmoved(s, m);
    assert Unstored(Next(s, m).threads[m.thread], p);
  }

  lemma NextStores(s: State, m: Move)
    requires ValidMove(s, m) && StoresInv(s) && NoAba(s, m)
    ensures StoresInv(Next(s, m))
  {
    var s' := Next(s, m);
    NextInv(s, m);
    OwnStores(s, m);
    OthersStay(s, m);
    forall t | 0 <= t < |s'.threads| && t != m.thread
      ensures HasStored(s'.threads[t], s'.stored)
    {
      assert HasStored(s.threads[t], s.stored);
    }
    forall p: nat | p < s'.T
      ensures Accounted(s', p)
    {
      if p < s.T {
        StillAccounted(s, m, p);
      } else {
        NewlyClaimed(s, m, p);
      }
    }
  }

  lemma {:induction false} RunStores(states: seq<State>, moves: seq<Move>, i: nat)
    requires FreshRun(states, moves) && i < |states|
    ensures StoresInv(states[i])
    decreases i
  {
    if i == 0 {
      var threads: nat :| states[0] == Initial(threads);
      InitialInv(threads);
    } else {
      RunStores(states, moves, i - 1);
      assert ValidMove(states[i - 1], moves[i - 1]) && NoAba(states[i - 1], moves[i - 1]);
      NextStores(states[i - 1], moves[i - 1]);
      assert states[i] == Next(states[i - 1], moves[i - 1]);
    }
  }

  /** A position counts as stored once its item has been put into its slot. */
  lemma StoringWrites(s: State, m: Move, p: nat)
    requires ValidMove(s, m) && Inv(s) && p !in s.stored && p in Next(s, m).stored
    ensures
      var s' := Next(s, m);
      p < |s'.log| && |s'.buffer| == RING_QUEUE_SIZE && s'.buffer[p % RING_QUEUE_SIZE] == s'.log[p]
  {
    assert Storing(s, m.thread, p);
    StoredItem(s, m.thread, p);
  }

  /** At step d the item of position p was put into its slot. */
  ghost predicate PutAt(states: seq<State>, d: nat, p: nat) {
    && d < |states| && p < |states[d].log| && |states[d].buffer| == RING_QUEUE_SIZE
    && states[d].buffer[p % RING_QUEUE_SIZE] == states[d].log[p]
  }

  lemma {:induction false} StoredWasPut(states: seq<State>, moves: seq<Move>, i: nat, p: nat)
    requires FreshRun(states, moves) && i < |states| && p in states[i].stored
    ensures exists d: nat :: d <= i && PutAt(states, d, p)
    decreases i
  {
    if i == 0 {
      assert false;
    } else if p in states[i - 1].stored {
      StoredWasPut(states, moves, i - 1, p);
    } else {
      RunStores(states, moves, i - 1);
      assert ValidMove(states[i - 1], moves[i - 1]) && states[i] == Next(states[i - 1], moves[i - 1]);
      StoringWrites(states[i - 1], moves[i - 1], p);
      assert PutAt(states, i, p);
    }
  }

  /** In every run, when a push or batch insertion has returned n, the items of its n positions have been put in place. */
  lemma FinishedPushesAreStored(states: seq<State>, moves: seq<Move>, i: nat, t: nat, p: nat)
    requires FreshRun(states, moves) && i < |states| && t < |states[i].threads|
    requires states[i].threads[t].Idle? && states[i].threads[t].answer.Pushed?
    requires var a := states[i].threads[t].answer; a.base <= p < a.base + a.n
    ensures exists d: nat :: d <= i && PutAt(states, d, p)
  {
    RunStores(states, moves, i);
    assert HasStored(states[i].threads[t], states[i].stored);
    StoredWasPut(states, moves, i, p);
  }

  /** With the handoff kept, when no call is in progress the buffer holds the whole queue, each item in its slot. */
  lemma QuiescentBufferHoldsTheQueue(states: seq<State>, moves: seq<Move>, i: nat)
    requires HandoffRun(states, moves) && i < |states|
    requires forall t :: 0 <= t < |states[i].threads| ==> states[i].threads[t].Idle?
    ensures
      var s := states[i];
      && s.H <= s.T == |s.log| && |s.buffer| == RING_QUEUE_SIZE
      && forall k :: 0 <= k < |Queue(s)| ==> s.buffer[(s.H + k) % RING_QUEUE_SIZE] == Queue(s)[k]
  {
    RunStores(states, moves, i);
    ConsumersReceiveWhatWasPushed(states, moves, i);
    var s := states[i];
    forall k | 0 <= k < |Queue(s)|
      ensures s.buffer[(s.H + k) % RING_QUEUE_SIZE] == Queue(s)[k]
    {
      assert Accounted(s, s.H + k);
    }
  }
}
