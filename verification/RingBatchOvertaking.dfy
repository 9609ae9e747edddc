/**
 A run in which only a producer fails to wait: it stores one lap ahead of a position that a batch removal
 has claimed and not yet copied out, and the batch returns the wrong item.
 */
module RingBatchOvertaking {
  import opened Words
  import opened RingMachine
  import opened RingDelivery
  import opened RingOvertaking

  /** Distinct items for every position of the first lap. */
  function Lap(): seq<int> {
    seq(RING_QUEUE_SIZE, i => i + 1)
  }

  function FillAll(): Op {
    PushBatch(Lap())
  }

  /** Thread 0 has claimed the whole first lap and stored its first `done` items; thread 1 is idle. */
  predicate Filling(s: State, done: nat) {
    && s.threads == [Copying(FillAll(), Snap(0, 0), 0, RING_QUEUE_SIZE, done, []), Idle(NoAnswer)]
    && s.head == s.H == 0
    && s.tail == s.T == RING_QUEUE_SIZE
    && s.log == Lap()
    && |s.buffer| == RING_QUEUE_SIZE
    && done <= RING_QUEUE_SIZE
    && (forall p: nat :: p < done ==> p in s.stored && s.buffer[p] == p + 1)
  }

  /** The ring is full, everything is stored and both threads are idle. */
  predicate Filled(s: State) {
    && |s.threads| == 2 && s.threads[0].Idle? && s.threads[1].Idle?
    && s.head == s.H == 0
    && s.tail == s.T == RING_QUEUE_SIZE
    && s.log == Lap()
    && |s.buffer| == RING_QUEUE_SIZE
    && (forall p: nat :: p < RING_QUEUE_SIZE ==> p in s.stored && s.buffer[p] == p + 1)
  }

  lemma ClaimTheLap() returns (states: seq<State>, moves: seq<Move>)
    ensures FreshRun(states, moves) && ConsumersWaited(states, moves)
    ensures Filling(states[|moves|], 0)
  {
    states, moves := FreshStart();
    states, moves := LoadTwice(states, moves, 0, FillAll());
    assert states[|moves|].threads == [Claiming(FillAll(), Snap(0, 0), RING_QUEUE_SIZE, 0), Idle(NoAnswer)];
    states, moves := Extend(states, moves, Act(0, FillAll()));
    assert Prefix(Lap(), RING_QUEUE_SIZE) == Lap();
  }

  lemma {:induction false} StoreTheLap(states: seq<State>, moves: seq<Move>, done: nat)
    returns (states': seq<State>, moves': seq<Move>)
    requires FreshRun(states, moves) && ConsumersWaited(states, moves)
    requires Filling(states[|moves|], done)
    ensures FreshRun(states', moves') && ConsumersWaited(states', moves')
    ensures Filling(states'[|moves'|], RING_QUEUE_SIZE)
    decreases RING_QUEUE_SIZE - done
  {
    states', moves' := states, moves;
    if done < RING_QUEUE_SIZE {
      ChunkSlotOfPosition(0, done);
      states', moves' := CopyAlone(states, moves, 0);
      states', moves' := StoreTheLap(states', moves', done + 1);
    }
  }

  lemma FillTheRing() returns (states: seq<State>, moves: seq<Move>)
    ensures FreshRun(states, moves) && ConsumersWaited(states, moves)
    ensures Filled(states[|moves|])
  {
    states, moves := ClaimTheLap();
    states, moves := StoreTheLap(states, moves, 0);
    states, moves := FinishAlone(states, moves, 0);
  }

  /** Thread 1 has claimed position 0 for a batch removal and not copied it; thread 0 is idle. */
  predicate Removing(s: State) {
    && |s.threads| == 2 && s.threads[0].Idle?
    && s.threads[1] == Copying(PopBatch(1), Snap(0, 0), 0, 1, 0, [])
    && s.head == s.H == 1
    && s.tail == s.T == RING_QUEUE_SIZE
    && s.log == Lap()
    && |s.buffer| == RING_QUEUE_SIZE
  }

  lemma ClaimForRemoval(states: seq<State>, moves: seq<Move>) returns (states': seq<State>, moves': seq<Move>)
    requires FreshRun(states, moves) && ConsumersWaited(states, moves) && Filled(states[|moves|])
    ensures FreshRun(states', moves') && ConsumersWaited(states', moves') && Removing(states'[|moves'|])
  {
    states', moves' := LoadTwice(states, moves, 1, PopBatch(1));
    assert states'[|moves'|].threads[1] == Claiming(PopBatch(1), Snap(0, 0), 1, 0);
    states', moves' := Extend(states', moves', Act(1, PopBatch(1)));
  }

  /** ... and thread 0 has claimed position RING_QUEUE_SIZE, which has the slot of position 0. */
  predicate Lapping(s: State) {
    && |s.threads| == 2
    && s.threads[0] == Copying(NextItem(), Snap(RING_QUEUE_SIZE, RING_QUEUE_SIZE), RING_QUEUE_SIZE, 1, 0, [])
    && s.threads[1] == Copying(PopBatch(1), Snap(0, 0), 0, 1, 0, [])
    && s.log == Lap() + [RING_QUEUE_SIZE + 1]
    && |s.buffer| == RING_QUEUE_SIZE
  }

  function NextItem(): Op {
    Push(RING_QUEUE_SIZE + 1)
  }

  lemma ClaimOneLapAhead(states: seq<State>, moves: seq<Move>) returns (states': seq<State>, moves': seq<Move>)
    requires FreshRun(states, moves) && ConsumersWaited(states, moves) && Removing(states[|moves|])
    ensures FreshRun(states', moves') && ConsumersWaited(states', moves') && Lapping(states'[|moves'|])
  {
    states', moves' := ClaimAlone(states, moves, 0, NextItem());
  }

  lemma StoreOneLapAhead(states: seq<State>, moves: seq<Move>) returns (states': seq<State>, moves': seq<Move>)
    requires FreshRun(states, moves) && ConsumersWaited(states, moves) && Lapping(states[|moves|])
    ensures FreshRun(states', moves') && ConsumersWaited(states', moves')
    ensures
      var s, s' := states[|moves|], states'[|moves'|];
      && |s'.threads| == 2 && s'.threads[1] == s.threads[1] && s'.log == s.log
      && |s'.buffer| == RING_QUEUE_SIZE && s'.buffer[0] == RING_QUEUE_SIZE + 1
  {
    ChunkSlotOfPosition(RING_QUEUE_SIZE, 0);
    states', moves' := CopyAlone(states, moves, 0);
  }

  lemma CopyAndReturn(states: seq<State>, moves: seq<Move>) returns (states': seq<State>, moves': seq<Move>)
    requires FreshRun(states, moves) && ConsumersWaited(states, moves)
    requires
      var s := states[|moves|];
      && |s.threads| == 2 && s.threads[1] == Copying(PopBatch(1), Snap(0, 0), 0, 1, 0, [])
      && |s.buffer| == RING_QUEUE_SIZE
    ensures FreshRun(states', moves') && ConsumersWaited(states', moves')
    ensures
      var s, s' := states[|moves|], states'[|moves'|];
      |s'.threads| == 2 && s'.threads[1] == Idle(Popped([s.buffer[0]], 0)) && s'.log == s.log
  {
    ChunkSlotOfPosition(0, 0);
    states', moves' := CopyAlone(states, moves, 1);
    assert states'[|moves'|].threads[1] == Copying(PopBatch(1), Snap(0, 0), 0, 1, 1, [states[|moves|].buffer[0]]);
    states', moves' := FinishAlone(states', moves', 1);
  }

  /**
   All items of a full ring are stored, and their positions claimed by consumers only then. Thread 1's
   batch removal of position 0 is overtaken between its claim and its copy: it returns the item of
   position RING_QUEUE_SIZE.
   */
  lemma BatchCanBeOvertakenByTheNextLap()
    ensures exists states: seq<State>, moves: seq<Move> ::
              && FreshRun(states, moves) && ConsumersWaited(states, moves)
              && var last := states[|moves|];
                 && |last.log| == RING_QUEUE_SIZE + 1
                 && last.log[0] == 1 && last.log[RING_QUEUE_SIZE] == RING_QUEUE_SIZE + 1
                 && |last.threads| == 2 && last.threads[1] == Idle(Popped([RING_QUEUE_SIZE + 1], 0))
  {
    var states, moves := FillTheRing();
    states, moves := ClaimForRemoval(states, moves);
    states, moves := ClaimOneLapAhead(states, moves);
    states, moves := StoreOneLapAhead(states, moves);
    states, moves := CopyAndReturn(states, moves);
  }
}
