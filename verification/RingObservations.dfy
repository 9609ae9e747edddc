/**
 What the answers of the ring queue say about the state at the instant of the second load, which is
 when they are decided. Each statement assumes that the snapshot is less than a word's range old.
 */
module RingObservations {
  import opened Words
  import opened RingMachine
  import opened RingSafety

  /** The thread is about to load its second index, and the indices are within a word of its snapshot. */
  ghost predicate Deciding(s: State, m: Move) {
    && ValidMove(s, m)
    && Inv(s)
    && s.threads[m.thread].Loaded?
    && s.T < s.threads[m.thread].first.pos + WORD
    && s.H + RING_QUEUE_SIZE < s.threads[m.thread].first.pos + WORD
  }

  predicate SaysEmpty(op: Op, after: Local) {
    match op
    case Pop => after == Idle(Flag(false))
    case PopBatch(_) => after == Idle(Popped([], 0))
    case Empty => after == Idle(Flag(true))
    case _ => false
  }

  /**
   "Empty" is answered exactly when the queue is empty at the tail load and no consumer has claimed
   anything since the head load.
   */
  lemma EmptyIsAnsweredIff(s: State, m: Move)
    requires Deciding(s, m)
    requires var op := s.threads[m.thread].op; op.Consumer() || op.Empty?
    ensures
      var l := s.threads[m.thread];
      SaysEmpty(l.op, Next(s, m).threads[m.thread]) <==> Queue(s) == [] && l.first.pos == s.H
  {
    var l := s.threads[m.thread];
    SubExact(s.T, l.first.pos);
    if l.first.word == s.tail {
      WrapInjective(s.T, l.first.pos);
    }
  }

  /**
   A push is refused exactly when the ring is full at the head load, or when consumers have already
   passed the tail it loaded. A batch is refused only in the first case.
   */
  lemma PushIsRefusedIff(s: State, m: Move)
    requires Deciding(s, m) && s.threads[m.thread].op.Producer()
    ensures
      var l := s.threads[m.thread];
      Next(s, m).threads[m.thread].Failing? <==>
        || (|Queue(s)| == RING_QUEUE_SIZE && l.first.pos == s.T)
        || (l.op.Push? && l.first.pos < s.H)
  {
    var l := s.threads[m.thread];
    var first := l.first.pos;
    if s.H <= first {
      SubExact(first, s.H);
      FreeSpaceExact(first, s.H);
    } else {
      SubBorrow(first, s.H);
    }
  }

  lemma SubBorrow(a: nat, b: nat)
    requires a < b && b + RING_QUEUE_SIZE < a + WORD
    ensures Sub(Wrap(a), Wrap(b)) == WORD - (b - a)
    ensures Sub(RING_QUEUE_SIZE, Sub(Wrap(a), Wrap(b))) == RING_QUEUE_SIZE + (b - a)
  {
    assert a == WORD * (a / WORD) + a % WORD;
    assert b == WORD * (b / WORD) + b % WORD;
    var k := b / WORD - a / WORD;
    assert a % WORD - b % WORD == (a - b) + WORD * k;
    assert 0 <= k <= 1;
    assert Sub(Wrap(a), Wrap(b)) == WORD - (b - a);
  }

  /** What push_batch decides when consumers have passed the tail it loaded: more than a whole ring. */
  lemma OvertakenBatchDecides(s: State, m: Move)
    requires Deciding(s, m) && s.threads[m.thread].op.PushBatch? && s.threads[m.thread].first.pos < s.H
    ensures
      var l := s.threads[m.thread];
      Next(s, m).threads[m.thread] ==
        Claiming(l.op, l.first, Min(|l.op.items|, RING_QUEUE_SIZE + (s.H - l.first.pos)), 0)
  {
    SubBorrow(s.threads[m.thread].first.pos, s.H);
  }

  lemma {:induction false} HeadOnlyGrows(states: seq<State>, moves: seq<Move>, i: nat, j: nat)
    requires Run(states, moves) && i <= j < |states|
    ensures states[i].H <= states[j].H
    decreases j - i
  {
    if i < j {
      HeadOnlyGrows(states, moves, i, j - 1);
      assert ValidMove(states[j - 1], moves[j - 1]) && states[j] == Next(states[j - 1], moves[j - 1]);
    }
  }

  /** A thread that makes no move from step i up to step j is at step j where it was. */
  lemma {:induction false} Unmoved(states: seq<State>, moves: seq<Move>, t: nat, i: nat, j: nat)
    requires Run(states, moves) && i <= j < |states| && t < |states[i].threads|
    requires forall k :: i <= k < j ==> moves[k].thread != t
    ensures t < |states[j].threads| && states[j].threads[t] == states[i].threads[t]
    decreases j - i
  {
    if i < j {
      Unmoved(states, moves, t, i, j - 1);
      assert ValidMove(states[j - 1], moves[j - 1]) && states[j] == Next(states[j - 1], moves[j - 1]);
      SnapshotsStartCurrent(states[j - 1], moves[j - 1], t);
    }
  }

  /**
   In every run: a push_batch that loads head after consumers passed the tail it loaded computes a free
   space beyond the ring size, and its next turn, whenever it comes, loses the compare-exchange and
   returns 0 without having claimed anything.
   */
  lemma OvertakenBatchClaimsNothing(states: seq<State>, moves: seq<Move>, i: nat, j: nat)
    requires FreshRun(states, moves) && i < j < |moves|
    requires moves[j].thread == moves[i].thread && forall k :: i < k < j ==> moves[k].thread != moves[i].thread
    requires Deciding(states[i], moves[i])
    requires var l := states[i].threads[moves[i].thread]; l.op.PushBatch? && l.first.pos < states[i].H
    ensures
      var l := states[i].threads[moves[i].thread];
      var freeSpace := Sub(RING_QUEUE_SIZE, Sub(l.first.word, states[i].head));
      && freeSpace == RING_QUEUE_SIZE + (states[i].H - l.first.pos)
      && states[i + 1].threads[moves[i].thread] == Claiming(l.op, l.first, Min(|l.op.items|, freeSpace), 0)
    ensures states[j + 1].T == states[j].T && states[j + 1].tail == states[j].tail
    ensures states[j + 1].losses == states[j].losses + 1
    ensures
      moves[j].thread < |states[j + 1].threads| && states[j + 1].threads[moves[j].thread] == Idle(Pushed(0, 0))
  {
    var t := moves[i].thread;
    IndicesStayWithinOneLap(states, moves);
    SubBorrow(states[i].threads[t].first.pos, states[i].H);
    OvertakenBatchDecides(states[i], moves[i]);
    assert states[i + 1] == Next(states[i], moves[i]);
    HeadOnlyGrows(states, moves, i, j);
    Unmoved(states, moves, t, i + 1, j);
    assert ValidMove(states[j], moves[j]) && NoAba(states[j], moves[j]) && states[j + 1] == Next(states[j], moves[j]);
    OvertakenProducerFails(states[j], moves[j]);
  }

  /** Only thread t moves the tail, as when one accept loop feeds the ring. */
  ghost predicate SoleProducer(states: seq<State>, moves: seq<Move>, t: nat)
    requires Run(states, moves)
  {
    forall i :: 0 <= i < |moves| && moves[i].thread != t ==> states[i + 1].T == states[i].T
  }

  ghost predicate SoleConsumer(states: seq<State>, moves: seq<Move>, t: nat)
    requires Run(states, moves)
  {
    forall i :: 0 <= i < |moves| && moves[i].thread != t ==> states[i + 1].H == states[i].H
  }

  /** A fresh snapshot is the index's current value, and nobody else's thread changes. */
  lemma SnapshotsStartCurrent(s: State, m: Move, t: nat)
    requires ValidMove(s, m) && t < |s.threads|
    ensures |Next(s, m).threads| == |s.threads|
    ensures t != m.thread ==> Next(s, m).threads[t] == s.threads[t]
    ensures
      var l := Next(s, m).threads[m.thread];
      l.Loaded? ==> l.first.pos == if l.op.Producer() then Next(s, m).T else Next(s, m).H
  {
  }

  lemma {:induction false} SoleProducerSeesTheTail(states: seq<State>, moves: seq<Move>, t: nat, i: nat)
    requires Run(states, moves) && SoleProducer(states, moves, t)
    requires i < |states| && t < |states[i].threads|
    ensures
      var l := states[i].threads[t];
      l.Loaded? && l.op.Producer() ==> l.first.pos == states[i].T
    decreases i
  {
    if i == 0 {
      var threads: nat :| states[0] == Initial(threads);
    } else {
      assert ValidMove(states[i - 1], moves[i - 1]) && states[i] == Next(states[i - 1], moves[i - 1]);
      SnapshotsStartCurrent(states[i - 1], moves[i - 1], t);
      SoleProducerSeesTheTail(states, moves, t, i - 1);
    }
  }

  lemma {:induction false} SoleConsumerSeesTheHead(states: seq<State>, moves: seq<Move>, t: nat, i: nat)
    requires Run(states, moves) && SoleConsumer(states, moves, t)
    requires i < |states| && t < |states[i].threads|
    ensures
      var l := states[i].threads[t];
      l.Loaded? && !l.op.Producer() ==> l.first.pos == states[i].H
    decreases i
  {
    if i == 0 {
      var threads: nat :| states[0] == Initial(threads);
    } else {
      assert ValidMove(states[i - 1], moves[i - 1]) && states[i] == Next(states[i - 1], moves[i - 1]);
      SnapshotsStartCurrent(states[i - 1], moves[i - 1], t);
      SoleConsumerSeesTheHead(states, moves, t, i - 1);
    }
  }

  /** With one producer a refused push or batch means a full ring, and a full ring refuses it. */
  lemma SoleProducerIsRefusedIffFull(states: seq<State>, moves: seq<Move>, i: nat)
    requires FreshRun(states, moves) && i < |moves|
    requires SoleProducer(states, moves, moves[i].thread)
    requires ValidMove(states[i], moves[i])
    requires var l := states[i].threads[moves[i].thread]; l.Loaded? && l.op.Producer()
    ensures Inv(states[i])
    ensures states[i + 1].threads[moves[i].thread].Failing? <==> |Queue(states[i])| == RING_QUEUE_SIZE
  {
    IndicesStayWithinOneLap(states, moves);
    SoleProducerSeesTheTail(states, moves, moves[i].thread, i);
    PushIsRefusedIff(states[i], moves[i]);
    assert states[i + 1] == Next(states[i], moves[i]);
  }

  /** ring_queue_size over-reports by exactly what consumers claimed since its head load. */
  lemma SizeOverReportsByRecentPops(s: State, m: Move)
    requires Deciding(s, m) && s.threads[m.thread].op.Size?
    ensures
      var l := s.threads[m.thread];
      && Next(s, m).threads[m.thread] == Idle(Measured(|Queue(s)| + (s.H - l.first.pos)))
      && l.first.pos <= s.H
  {
    SubExact(s.T, s.threads[m.thread].first.pos);
  }

  /** ... so the sole consumer gets the exact size at its tail load. */
  lemma SizeIsExactForTheSoleConsumer(states: seq<State>, moves: seq<Move>, i: nat)
    requires FreshRun(states, moves) && i < |moves|
    requires SoleConsumer(states, moves, moves[i].thread)
    requires ValidMove(states[i], moves[i])
    requires var l := states[i].threads[moves[i].thread]; l.Loaded? && l.op.Size?
    ensures Inv(states[i])
    ensures states[i + 1].threads[moves[i].thread] == Idle(Measured(|Queue(states[i])|))
  {
    IndicesStayWithinOneLap(states, moves);
    SoleConsumerSeesTheHead(states, moves, moves[i].thread, i);
    SizeOverReportsByRecentPops(states[i], moves[i]);
    assert states[i + 1] == Next(states[i], moves[i]);
  }

  /** ring_queue_full never misses a full ring, and otherwise answers yes only on account of recent pops. */
  lemma FullIsAnsweredIff(s: State, m: Move)
    requires Deciding(s, m) && s.threads[m.thread].op.Full?
    ensures
      var l := s.threads[m.thread];
      Next(s, m).threads[m.thread] == Idle(Flag(|Queue(s)| + (s.H - l.first.pos) >= RING_QUEUE_SIZE))
  {
    SubExact(s.T, s.threads[m.thread].first.pos);
  }
}
