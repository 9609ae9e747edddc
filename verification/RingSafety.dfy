/** Index safety of the shared ring queue in every interleaving, and the FIFO it implements. */
module RingSafety {
  import opened Words
  import opened RingMachine

  predicate SnapValid(snap: Snap) {
    snap.word == Wrap(snap.pos)
  }

  /** What holds of one thread, given the shared counters. */
  predicate LocalInv(l: Local, H: nat, T: nat, log: seq<int>)
    requires |log| == T
  {
    match l
    case Idle(_) => true
    case Start(op) => op.Entered()
    case Failing(op) => op.Producer()
    case Loaded(op, first) =>
      && op.Entered()
      && SnapValid(first)
      && (if op.Producer() then first.pos <= T && first.pos <= H + RING_QUEUE_SIZE else first.pos <= H)
    case Reading(op, first) =>
      && op.Pop?
      && SnapValid(first)
      && first.pos <= H
      && (first.pos == H ==> H < T)
    case Claiming(op, first, n, _) =>
      && op.Entered()
      && (op.Producer() || op.Consumer())
      && SnapValid(first)
      && 1 <= n < WORD
      && (op.Producer() ==>
            && first.pos <= T
            && n <= |op.Offered()|
            && (first.pos == T ==> T + n <= H + RING_QUEUE_SIZE))
      && (op.Consumer() ==>
            && first.pos <= H
            && (op.Pop? ==> n == 1)
            && (op.PopBatch? ==> n <= op.count)
            && (first.pos == H ==> H + n <= T))
    case Copying(op, first, base, n, done, out) =>
      && (op.Producer() || op.PopBatch?)
      && first.word == Wrap(base)
      && done <= n <= RING_QUEUE_SIZE
      && (op.Producer() ==>
            && n <= |op.Offered()|
            && base + n <= T
            && log[base..base + n] == op.Offered()[..n])
      && (op.PopBatch? ==> n <= op.count && base + n <= H && |out| == done)
    case Counting(op, base, n, out) =>
      && (op.Producer() || op.Consumer())
      && n <= RING_QUEUE_SIZE
      && (op.Consumer() ==> base + n <= H && |out| == n)
  }

  predicate SharedInv(s: State) {
    && s.H <= s.T <= s.H + RING_QUEUE_SIZE
    && s.head == Wrap(s.H)
    && s.tail == Wrap(s.T)
    && |s.buffer| == |s.writer| == RING_QUEUE_SIZE
    && |s.log| == s.T
  }

  ghost predicate Inv(s: State) {
    && SharedInv(s)
    && (forall t :: 0 <= t < |s.threads| ==> LocalInv(s.threads[t], s.H, s.T, s.log))
  }

  lemma InitialInv(threads: nat)
    ensures Inv(Initial(threads))
  {
  }

  /** The counters only grow and the log is only extended, which no thread's facts mind. */
  lemma LocalInvStable(l: Local, H: nat, T: nat, log: seq<int>, H': nat, T': nat, log': seq<int>)
    requires |log| == T && LocalInv(l, H, T, log)
    requires H <= H' <= T' && T <= T' && |log'| == T' && log <= log'
    requires H' == H || T' == T
    requires T <= H + RING_QUEUE_SIZE && T' <= H' + RING_QUEUE_SIZE
    ensures LocalInv(l, H', T', log')
  {
    if l.Copying? && l.op.Producer() {
      assert log'[l.base..l.base + l.n] == log[l.base..l.base + l.n];
    }
  }

  /** The decision a thread takes from its two words. */
  lemma DecideInv(s: State, t: nat)
    requires t < |s.threads| && s.threads[t].Loaded? && Inv(s)
    ensures LocalInv(Decide(s.threads[t].op, s.threads[t].first, LoadSecond(s, s.threads[t].op)), s.H, s.T, s.log)
  {
    var l := s.threads[t];
    var first := l.first.pos;
    if l.op.Producer() && first == s.T {
      SubExact(s.T, s.H);
      FreeSpaceExact(s.T, s.H);
    }
    if l.op.Consumer() && first == s.H {
      SubExact(s.T, s.H);
    }
  }

  /** A successful compare-exchange proves that the index did not move since it was loaded. */
  lemma SuccessMeansUnmoved(s: State, m: Move)
    requires ValidMove(s, m) && Inv(s) && NoAba(s, m)
    requires s.threads[m.thread].Claiming?
    ensures
      var l := s.threads[m.thread];
      if l.op.Producer() then s.tail == l.first.word <==> s.T == l.first.pos
      else s.head == l.first.word <==> s.H == l.first.pos
  {
    var l := s.threads[m.thread];
    if l.op.Producer() {
      if s.tail == l.first.word {
        WrapInjective(s.T, l.first.pos);
      }
    } else {
      if s.head == l.first.word {
        WrapInjective(s.H, l.first.pos);
      }
    }
  }

  lemma OthersStayValid(s: State, s': State, t: nat)
    requires Inv(s) && |s'.threads| == |s.threads|
    requires forall u :: 0 <= u < |s.threads| && u != t ==> s'.threads[u] == s.threads[u]
    requires s.H <= s'.H <= s'.T <= s'.H + RING_QUEUE_SIZE && s.T <= s'.T
    requires |s'.log| == s'.T && s.log <= s'.log && (s'.H == s.H || s'.T == s.T)
    ensures forall u :: 0 <= u < |s'.threads| && u != t ==> LocalInv(s'.threads[u], s'.H, s'.T, s'.log)
  {
    forall u | 0 <= u < |s'.threads| && u != t
      ensures LocalInv(s'.threads[u], s'.H, s'.T, s'.log)
    {
      LocalInvStable(s.threads[u], s.H, s.T, s.log, s'.H, s'.T, s'.log);
    }
  }

  lemma ClaimTailInv(s: State, t: nat)
    requires t < |s.threads| && s.threads[t].Claiming? && s.threads[t].op.Producer()
    requires Inv(s) && s.T == s.threads[t].first.pos
    ensures Inv(ClaimTail(s, t))
  {
    ClaimTailOwn(s, t);
    OthersStayValid(s, ClaimTail(s, t), t);
  }

  /** The shared words after a producer's claim, and what the claimer then knows. */
  lemma ClaimTailOwn(s: State, t: nat)
    requires t < |s.threads| && s.threads[t].Claiming? && s.threads[t].op.Producer()
    requires Inv(s) && s.T == s.threads[t].first.pos
    ensures SharedInv(ClaimTail(s, t)) && s.log <= ClaimTail(s, t).log
    ensures var s' := ClaimTail(s, t); LocalInv(s'.threads[t], s'.H, s'.T, s'.log)
  {
    var l := s.threads[t];
    var s' := ClaimTail(s, t);
    WrapAdd(s.T, l.n);
    AppendedAtTheEnd(s.log, l.op.Offered(), l.n);
  }

  lemma AppendedAtTheEnd(log: seq<int>, items: seq<int>, n: nat)
    requires n <= |items|
    ensures var log' := log + Prefix(items, n); log <= log' && |log'| == |log| + n && log'[|log|..|log| + n] == items[..n]
  {
  }

  lemma ClaimHeadInv(s: State, t: nat)
    requires t < |s.threads| && s.threads[t].Claiming? && s.threads[t].op.Consumer()
    requires Inv(s) && s.H == s.threads[t].first.pos
    ensures Inv(ClaimHead(s, t))
  {
    var l := s.threads[t];
    var s' := ClaimHead(s, t);
    WrapAdd(s.H, l.n);
    OthersStayValid(s, s', t);
  }

  lemma ClaimInv(s: State, m: Move)
    requires ValidMove(s, m) && Inv(s) && NoAba(s, m)
    requires s.threads[m.thread].Claiming?
    ensures Inv(Next(s, m))
  {
    var l := s.threads[m.thread];
    SuccessMeansUnmoved(s, m);
    if l.op.Producer() && s.T == l.first.pos && !m.spurious {
      ClaimTailInv(s, m.thread);
    } else if l.op.Consumer() && s.H == l.first.pos && !m.spurious {
      ClaimHeadInv(s, m.thread);
    }
  }

  /** Every step of every thread keeps the invariant. */
  lemma NextInv(s: State, m: Move)
    requires ValidMove(s, m) && Inv(s) && NoAba(s, m)
    ensures Inv(Next(s, m))
  {
    var l := s.threads[m.thread];
    match l
    case Loaded(op, first) => DecideInv(s, m.thread);
    case Claiming(_, _, _, _) => ClaimInv(s, m);
    case _ =>
  }

  /**
   In every run, with any number of threads, stale snapshots and spurious failures, the two indices
   stay within one lap of each other.
   */
  lemma {:induction false} IndicesStayWithinOneLap(states: seq<State>, moves: seq<Move>)
    requires FreshRun(states, moves)
    ensures forall i :: 0 <= i < |states| ==> Inv(states[i])
    ensures forall i :: 0 <= i < |states| ==> 0 <= states[i].T - states[i].H <= RING_QUEUE_SIZE
    decreases |moves|
  {
    if |moves| == 0 {
      var threads: nat :| states[0] == Initial(threads);
      InitialInv(threads);
    } else {
      var k := |moves| - 1;
      var states', moves' := states[..|moves|], moves[..k];
      assert states'[0] == states[0];
      forall i | 0 <= i < |moves'|
        ensures ValidMove(states'[i], moves'[i]) && states'[i + 1] == Next(states'[i], moves'[i]) && NoAba(states'[i], moves'[i])
      {
        assert states'[i] == states[i] && moves'[i] == moves[i];
      }
      IndicesStayWithinOneLap(states', moves');
      assert states'[k] == states[k];
      NextInv(states[k], moves[k]);
      forall i | 0 <= i < |states|
        ensures Inv(states[i])
      {
        if i < |moves| {
          assert states[i] == states'[i];
        }
      }
    }
  }

  /** A producer whose tail snapshot consumers have passed loses its compare-exchange and claims nothing. */
  lemma OvertakenProducerFails(s: State, m: Move)
    requires ValidMove(s, m) && Inv(s) && NoAba(s, m)
    requires s.threads[m.thread].Claiming? && s.threads[m.thread].op.Producer()
    requires s.threads[m.thread].first.pos < s.H
    ensures Next(s, m).T == s.T && Next(s, m).tail == s.tail
    ensures Next(s, m).losses == s.losses + 1
    ensures Next(s, m).threads[m.thread] == AfterLoss(s.threads[m.thread].op)
  {
    SuccessMeansUnmoved(s, m);
  }

  /**
   Every access of a slot is to that of the position meant, inside the buffer, and no copy leaves the
   array the caller passed: the items of a push, the count cells of a batch removal.
   */
  lemma AccessesInBounds(s: State, t: nat)
    requires Inv(s) && t < |s.threads|
    ensures
      var l := s.threads[t];
      l.Copying? && l.done < l.n ==>
        && ChunkSlot(Slot(l.first.word), l.done) == (l.base + l.done) % RING_QUEUE_SIZE
        && 0 <= ChunkSlot(Slot(l.first.word), l.done) < |s.buffer|
        && (if l.op.Producer() then l.done < |l.op.Offered()| else l.op.PopBatch? && l.done < l.op.count)
    ensures
      var l := s.threads[t];
      l.Reading? ==> Slot(l.first.word) == l.first.pos % RING_QUEUE_SIZE && 0 <= Slot(l.first.word) < |s.buffer|
  {
    var l := s.threads[t];
    if l.Copying? && l.done < l.n {
      ChunkSlotOfPosition(l.base, l.done);
    } else if l.Reading? {
      SlotOfPosition(l.first.pos);
    }
  }

  /** The compare-exchange this move is about to make will succeed. */
  predicate Succeeds(s: State, m: Move)
    requires ValidMove(s, m)
  {
    var l := s.threads[m.thread];
    l.Claiming? && !m.spurious && l.first.pos == if l.op.Producer() then s.T else s.H
  }

  /**
   The index protocol implements a FIFO. A successful compare-exchange of a producer appends the first n
   items it offers, which fit; one of a consumer removes the first n items, which are there; no other step
   of any thread changes the queue.
   */
  lemma EveryStepIsAFifoStep(s: State, m: Move)
    requires ValidMove(s, m) && Inv(s) && NoAba(s, m)
    ensures Inv(Next(s, m))
    ensures
      var s', l := Next(s, m), s.threads[m.thread];
      if !Succeeds(s, m) then Queue(s') == Queue(s)
      else if l.op.Producer() then
        && |Queue(s)| + l.n <= RING_QUEUE_SIZE
        && Queue(s') == Queue(s) + l.op.Offered()[..l.n]
      else
        && l.n <= |Queue(s)|
        && Queue(s') == Queue(s)[l.n..]
  {
    NextInv(s, m);
    if s.threads[m.thread].Claiming? {
      SuccessMeansUnmoved(s, m);
    }
  }
}
