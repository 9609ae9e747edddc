/**
 Runs in which the ring queue hands out items other than those pushed, because one side of the handoff is
 not kept, and one in which a push meets a stale tail.
 */
module RingOvertaking {
  import opened Words
  import opened RingMachine
  import opened RingSafety
  import opened RingDelivery

  function Act(thread: nat, op: Op): Move {
    Move(thread, op, false)
  }

  /** Consumers kept their side of the handoff all along. */
  ghost predicate ConsumersWaited(states: seq<State>, moves: seq<Move>)
    requires Run(states, moves)
  {
    forall i :: 0 <= i < |moves| ==> ConsumersWait(states[i], moves[i])
  }

  /** Producers kept theirs. */
  ghost predicate ProducersWaited(states: seq<State>, moves: seq<Move>)
    requires Run(states, moves)
  {
    forall i :: 0 <= i < |moves| ==> ProducersWait(states[i], moves[i])
  }

  /** One run goes on from the other, and whichever side of the handoff was kept is still kept. */
  ghost predicate GoesOn(states: seq<State>, moves: seq<Move>, states': seq<State>, moves': seq<Move>)
    requires Run(states, moves)
  {
    && FreshRun(states', moves')
    && (ConsumersWaited(states, moves) ==> ConsumersWaited(states', moves'))
    && (ProducersWaited(states, moves) ==> ProducersWaited(states', moves'))
  }

  /** A run extended by one move. */
  lemma Extend(states: seq<State>, moves: seq<Move>, m: Move) returns (states': seq<State>, moves': seq<Move>)
    requires FreshRun(states, moves)
    requires ValidMove(states[|moves|], m) && NoAba(states[|moves|], m)
    ensures FreshRun(states', moves')
    ensures ConsumersWaited(states, moves) && ConsumersWait(states[|moves|], m) ==> ConsumersWaited(states', moves')
    ensures ProducersWaited(states, moves) && ProducersWait(states[|moves|], m) ==> ProducersWaited(states', moves')
    ensures states'[|moves'|] == Next(states[|moves|], m)
  {
    states', moves' := states + [Next(states[|moves|], m)], moves + [m];
    assert states'[0] == states[0];
    forall i | 0 <= i < |moves'|
      ensures ValidMove(states'[i], moves'[i]) && NoAba(states'[i], moves'[i]) && states'[i + 1] == Next(states'[i], moves'[i])
    {
      if i < |moves| {
        assert states'[i] == states[i] && moves'[i] == moves[i] && states'[i + 1] == states[i + 1];
      }
    }
  }

  /** Two threads, nothing done yet. */
  lemma FreshStart() returns (states: seq<State>, moves: seq<Move>)
    ensures FreshRun(states, moves) && ConsumersWaited(states, moves) && ProducersWaited(states, moves)
    ensures states[|moves|] == Initial(2)
  {
    states, moves := [Initial(2)], [];
  }

  /** A thread's call up to the second load, on indices that nobody else moves. */
  lemma LoadTwice(states: seq<State>, moves: seq<Move>, t: nat, op: Op) returns (states': seq<State>, moves': seq<Move>)
    requires FreshRun(states, moves)
    requires
      var s := states[|moves|];
      t < |s.threads| && s.threads[t].Idle? && op.WellFormed() && Invoke(op) == Start(op)
    ensures GoesOn(states, moves, states', moves')
    ensures
      var s := states[|moves|];
      states'[|moves'|] == Goto(s, t, Decide(op, LoadFirst(s, op), LoadSecond(s, op)))
  {
    var s := states[|moves|];
    states', moves' := Extend(states, moves, Act(t, op));
    assert states'[|moves'|] == Goto(s, t, Start(op));
    states', moves' := Extend(states', moves', Act(t, op));
    assert states'[|moves'|] == Goto(s, t, Loaded(op, LoadFirst(s, op)));
    states', moves' := Extend(states', moves', Act(t, op));
  }

  /** A push, up to its won compare-exchange, on indices that nobody else moves. */
  lemma ClaimAlone(states: seq<State>, moves: seq<Move>, t: nat, op: Op) returns (states': seq<State>, moves': seq<Move>)
    requires FreshRun(states, moves) && op.Push?
    requires
      var s := states[|moves|];
      t < |s.threads| && s.threads[t].Idle? && Sub(s.tail, s.head) < RING_QUEUE_SIZE
    ensures GoesOn(states, moves, states', moves')
    ensures
      var s := states[|moves|];
      states'[|moves'|] == ClaimTail(Goto(s, t, Claiming(op, Snap(s.tail, s.T), 1, 0)), t)
  {
    states', moves' := LoadTwice(states, moves, t, op);
    states', moves' := Extend(states', moves', Act(t, op));
  }

  /** The store of a push, or one element of a batch; consumers' waiting is not at stake. */
  lemma CopyAlone(states: seq<State>, moves: seq<Move>, t: nat) returns (states': seq<State>, moves': seq<Move>)
    requires FreshRun(states, moves) && t < |states[|moves|].threads| && states[|moves|].threads[t].Copying?
    ensures FreshRun(states', moves')
    ensures ConsumersWaited(states, moves) ==> ConsumersWaited(states', moves')
    ensures states'[|moves'|] == CopyOne(states[|moves|], t)
  {
    states', moves' := Extend(states, moves, Act(t, Pop));
  }

  /** The rest of a call whose items are all copied. */
  lemma FinishAlone(states: seq<State>, moves: seq<Move>, t: nat) returns (states': seq<State>, moves': seq<Move>)
    requires FreshRun(states, moves) && t < |states[|moves|].threads|
    requires var l := states[|moves|].threads[t]; l.Copying? && l.done == l.n
    ensures GoesOn(states, moves, states', moves')
    ensures states'[|moves'|] == CountMoved(CopyOne(states[|moves|], t), t)
  {
    states', moves' := Extend(states, moves, Act(t, Pop));
    states', moves' := Extend(states', moves', Act(t, Pop));
  }

  /**
   Thread 0 pushes 7 and is overtaken between its claim and its store: thread 1 pops successfully and
   receives the slot's initial 0. Only the consumer fails to wait.
   */
  lemma PopCanOvertakeTheStore()
    ensures exists states: seq<State>, moves: seq<Move> ::
              && FreshRun(states, moves) && ProducersWaited(states, moves)
              && var last := states[|moves|];
                 last.log == [7] && last.H == 1 && |last.threads| == 2 && last.threads[1] == Idle(Popped([0], 0))
  {
    var push := Push(7);
    var states, moves := FreshStart();
    states, moves := ClaimAlone(states, moves, 0, push);
    var s := states[|moves|];
    assert s.threads == [Copying(push, Snap(0, 0), 0, 1, 0, []), Idle(NoAnswer)];
    assert s.tail == s.T == 1 && s.head == s.H == 0 && s.log == [7] && s.buffer == Initial(2).buffer;
    states, moves := PopUnstored(states, moves);
  }

  /** With position 0 claimed and not stored, thread 1 pops what the slot holds. */
  lemma PopUnstored(states: seq<State>, moves: seq<Move>) returns (states': seq<State>, moves': seq<Move>)
    requires FreshRun(states, moves)
    requires
      var s := states[|moves|];
      && |s.threads| == 2 && s.threads[1].Idle?
      && s.tail == s.T == |s.log| == 1 && s.head == s.H == 0 && s.buffer == Initial(2).buffer
    ensures FreshRun(states', moves')
    ensures ProducersWaited(states, moves) ==> ProducersWaited(states', moves')
    ensures
      var last := states'[|moves'|];
      && last.log == states[|moves|].log && last.H == 1 && |last.threads| == 2
      && last.threads[1] == Idle(Popped([0], 0))
  {
    var s, pop := states[|moves|], Pop;
    states', moves' := LoadTwice(states, moves, 1, pop);
    assert states'[|moves'|] == Goto(s, 1, Reading(pop, Snap(0, 0)));
    states', moves' := Extend(states', moves', Act(1, pop));
    assert states'[|moves'|] == Goto(s, 1, Claiming(pop, Snap(0, 0), 1, 0));
    states', moves' := ClaimAndReturn(states', moves');
  }

  lemma ClaimAndReturn(states: seq<State>, moves: seq<Move>) returns (states': seq<State>, moves': seq<Move>)
    requires FreshRun(states, moves)
    requires
      var s := states[|moves|];
      |s.threads| == 2 && s.threads[1] == Claiming(Pop, Snap(0, 0), 1, 0) && s.head == s.H == 0
    ensures FreshRun(states', moves')
    ensures ProducersWaited(states, moves) ==> ProducersWaited(states', moves')
    ensures
      var last := states'[|moves'|];
      && last.log == states[|moves|].log && last.H == 1 && |last.threads| == 2
      && last.threads[1] == Idle(Popped([0], 0))
  {
    states', moves' := Extend(states, moves, Act(1, Pop));
    assert states'[|moves'|].threads[1] == Counting(Pop, 0, 1, [0]);
    states', moves' := Extend(states', moves', Act(1, Pop));
  }

  /**
   Thread 0 loads the tail, then thread 1 pushes and pops one item: thread 0's push is refused although
   the queue is empty.
   */
  lemma PushCanBeRefusedOnAnEmptyQueue()
    ensures exists states: seq<State>, moves: seq<Move> ::
              && FreshRun(states, moves)
              && var last := states[|moves|];
                 last.H == last.T == |last.log| && |last.threads| == 2 && last.threads[0] == Idle(Flag(false))
  {
    var first, push, pop := Push(1), Push(2), Pop;
    var states, moves := FreshStart();
    states, moves := Extend(states, moves, Act(0, first));
    states, moves := Extend(states, moves, Act(0, first));
    var waiting := Loaded(first, Snap(0, 0));
    assert states[|moves|].threads == [waiting, Idle(NoAnswer)];
    states, moves := PushOnce(states, moves, waiting);
    states, moves := PopOnce(states, moves, waiting);
    states, moves := RefuseThePush(states, moves, first);
  }

  lemma RefuseThePush(states: seq<State>, moves: seq<Move>, op: Op) returns (states': seq<State>, moves': seq<Move>)
    requires FreshRun(states, moves) && op.Push?
    requires
      var s := states[|moves|];
      && |s.threads| == 2 && s.threads[0] == Loaded(op, Snap(0, 0))
      && s.head == s.H == s.tail == s.T == |s.log| == 1
    ensures FreshRun(states', moves')
    ensures
      var last := states'[|moves'|];
      last.H == last.T == |last.log| && |last.threads| == 2 && last.threads[0] == Idle(Flag(false))
  {
    states', moves' := Extend(states, moves, Act(0, op));
    assert states'[|moves'|] == Goto(states[|moves|], 0, Failing(op));
    states', moves' := Extend(states', moves', Act(0, op));
  }

  lemma PushOnce(states: seq<State>, moves: seq<Move>, other: Local) returns (states': seq<State>, moves': seq<Move>)
    requires FreshRun(states, moves)
    requires
      var s := states[|moves|];
      s.threads == [other, Idle(NoAnswer)] && s.head == s.tail == s.H == s.T == |s.log| == 0 && |s.buffer| == RING_QUEUE_SIZE
    ensures FreshRun(states', moves')
    ensures
      var s := states'[|moves'|];
      && |s.threads| == 2 && s.threads[0] == other && s.threads[1].Idle?
      && s.head == s.H == 0 && s.tail == s.T == |s.log| == 1
  {
    var op := Push(2);
    states', moves' := ClaimAlone(states, moves, 1, op);
    assert states'[|moves'|].threads == [other, Copying(op, Snap(0, 0), 0, 1, 0, [])];
    states', moves' := CopyAlone(states', moves', 1);
    assert states'[|moves'|].threads == [other, Copying(op, Snap(0, 0), 0, 1, 1, [])];
    states', moves' := FinishAlone(states', moves', 1);
  }

  lemma PopOnce(states: seq<State>, moves: seq<Move>, other: Local) returns (states': seq<State>, moves': seq<Move>)
    requires FreshRun(states, moves)
    requires
      var s := states[|moves|];
      && |s.threads| == 2 && s.threads[0] == other && s.threads[1].Idle?
      && s.head == s.H == 0 && s.tail == s.T == |s.log| == 1
    ensures FreshRun(states', moves')
    ensures
      var s := states'[|moves'|];
      && |s.threads| == 2 && s.threads[0] == other
      && s.head == s.H == s.tail == s.T == |s.log| == 1
  {
    states', moves' := LoadTwice(states, moves, 1, Pop);
    assert states'[|moves'|].threads[1] == Reading(Pop, Snap(0, 0));
    states', moves' := Extend(states', moves', Act(1, Pop));
    var s := states'[|moves'|];
    assert s.threads[1].Claiming? && s.threads[1].first == Snap(0, 0) && s.threads[1].op.Pop? && s.threads[1].n == 1;
    states', moves' := Extend(states', moves', Act(1, Pop));
  }
}
