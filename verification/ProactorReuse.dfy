/**
 Runs in which a hang-up comes between taking an operation from the stack and submitting it, and the
 descriptor is given to the next connection in between: the operation acts on the new connection's socket.
 */
module ProactorReuse {
  import opened Bytes
  import opened Proactor
  import opened ProactorLifecycle
  import opened ProactorEcho
  import opened ProactorSockets

  /** A run extended by one move. */
  lemma Extend(states: seq<State>, moves: seq<Move>, unsignedRes: bool, m: Move)
    returns (states': seq<State>, moves': seq<Move>)
    requires Run(states, moves, unsignedRes) && Enabled(states[|moves|], m)
    ensures Run(states', moves', unsignedRes)
    ensures KnownOps(states[|moves|]) && states'[|moves'|] == Next(states[|moves|], m, unsignedRes)
  {
    EveryOperationIsInOnePlace(states, moves, unsignedRes, |moves|);
    states', moves' := states + [Next(states[|moves|], m, unsignedRes)], moves + [m];
    assert states'[0] == states[0];
    forall i | 0 <= i < |moves'|
      ensures Enabled(states'[i], moves'[i]) && KnownOps(states'[i])
      ensures states'[i + 1] == Next(states'[i], moves'[i], unsignedRes)
    {
      if i < |moves| {
        assert states'[i] == states[i] && moves'[i] == moves[i] && states'[i + 1] == states[i + 1];
      }
    }
  }

  function ReadOf(g: Gen): Op {
    Op(Read, 5, g, BUFFER_SIZE - 1)
  }

  /** One worker; a first connection on descriptor 5, whose first read the worker has taken. */
  lemma FirstReadTaken(unsignedRes: bool) returns (states: seq<State>, moves: seq<Move>)
    ensures Run(states, moves, unsignedRes)
    ensures
      var s := states[|moves|];
      && s.ops == [ReadOf(0)] && |s.ctxs| == 1 && s.ctxs[0].fd == 5
      && |s.ctxs[0].readBuf| == |s.ctxs[0].writeBuf| == BUFFER_SIZE
      && s.connections == map[5 := 0] && s.maxConnections == 10
      && s.workers == [Holding(0)] && s.stack == [] && s.kernel == map[]
      && s.completed == s.batch == [] && s.finishing == s.freed == [] && s.traffic == []
  {
    states, moves := [Initial(1, 10)], [];
    states, moves := Extend(states, moves, unsignedRes, Connect(5, true, true));
    states, moves := Extend(states, moves, unsignedRes, WorkerTake(0));
  }

  /** The connection on descriptor 5 goes and the next one gets the same number, as generation 1. */
  lemma Replace(states: seq<State>, moves: seq<Move>, unsignedRes: bool) returns (states': seq<State>, moves': seq<Move>)
    requires Run(states, moves, unsignedRes)
    requires
      var s := states[|moves|];
      s.batch == [] && s.finishing == [] && s.connections == map[5 := 0] && s.maxConnections == 10 && |s.ctxs| == 1
    ensures Run(states', moves', unsignedRes)
    ensures
      var s, s' := states[|moves|], states'[|moves'|];
      && s' == s.(connections := map[5 := 1], ctxs := s'.ctxs, ops := s.ops + [ReadOf(1)], stack := [|s.ops|] + s.stack)
      && |s'.ctxs| == 2 && s'.ctxs[0] == s.ctxs[0] && s'.ctxs[1].fd == 5
  {
    states', moves' := Extend(states, moves, unsignedRes, HangUp(5));
    states', moves' := Extend(states', moves', unsignedRes, Connect(5, true, true));
  }

  /**
   The first connection's read takes what the second connection's peer sends, and the completion is
   dropped: the chunk is never echoed.
   */
  lemma AStaleReadTakesTheNewPeersData(unsignedRes: bool)
    ensures exists states: seq<State>, moves: seq<Move> ::
              && Run(states, moves, unsignedRes)
              && var last := states[|moves|];
                 && last.connections == map[5 := 1] && last.freed == [0]
                 && FromPeer(last, 1) == [[104]] && Over(last.traffic, 1, Read, true) == []
  {
    var states, moves := FirstReadTaken(unsignedRes);
    states, moves := Replace(states, moves, unsignedRes);
    states, moves := Extend(states, moves, unsignedRes, WorkerSubmit(0, Submitted));
    assert states[|moves|].kernel == map[0 := Connection(1)];
    states, moves := Extend(states, moves, unsignedRes, KernelReads(0, [104]));
    var t := Transfer(Connection(1), 0, Read, [104]);
    assert states[|moves|].traffic == [] + [t];
    OverMore([], t, 1, Read, false);
    OverMore([], t, 1, Read, true);
    states, moves := DropStaleRead(states, moves, unsignedRes);
  }

  lemma DropStaleRead(states: seq<State>, moves: seq<Move>, unsignedRes: bool)
    returns (states': seq<State>, moves': seq<Move>)
    requires Run(states, moves, unsignedRes)
    requires
      var s := states[|moves|];
      && s.ops == [ReadOf(0), ReadOf(1)] && s.connections == map[5 := 1] && s.maxConnections == 10
      && s.completed == [Completion(0, 1)] && s.batch == [] && s.finishing == s.freed == []
    ensures Run(states', moves', unsignedRes)
    ensures
      var s, s' := states[|moves|], states'[|moves'|];
      s'.connections == s.connections && s'.traffic == s.traffic && s'.freed == [0]
  {
    states', moves' := Extend(states, moves, unsignedRes, Fetch(1));
    assert states'[|moves'|].batch == [Completion(0, 1)];
    states', moves' := Extend(states', moves', unsignedRes, Dispatch(true));
  }

  /** The first connection's peer has sent one byte, and the worker has taken the write of its echo. */
  lemma FirstEchoTaken(unsignedRes: bool) returns (states: seq<State>, moves: seq<Move>)
    ensures Run(states, moves, unsignedRes)
    ensures
      var s := states[|moves|];
      && s.ops == [ReadOf(0), Op(Write, 5, 0, |ECHO_PREFIX| + 1)] && |s.ctxs| == 1
      && |s.ctxs[0].writeBuf| == BUFFER_SIZE && s.ctxs[0].writeBuf[..|ECHO_PREFIX| + 1] == ECHO_PREFIX + [104]
      && s.connections == map[5 := 0] && s.maxConnections == 10
      && s.workers == [Holding(1)] && s.stack == [] && s.kernel == map[]
      && s.batch == [] && s.finishing == []
      && s.traffic == [FirstChunk()]
  {
    states, moves := FirstReadTaken(unsignedRes);
    states, moves := Extend(states, moves, unsignedRes, WorkerSubmit(0, Submitted));
    states, moves := Extend(states, moves, unsignedRes, KernelReads(0, [104]));
    var c := states[|moves|].ctxs[0];
    assert c.readBuf[..1] == [104];
    states, moves := Extend(states, moves, unsignedRes, Fetch(1));
    assert states[|moves|].batch == [Completion(0, 1)];
    states, moves := HandleFirstRead(states, moves, unsignedRes);
  }

  lemma HandleFirstRead(states: seq<State>, moves: seq<Move>, unsignedRes: bool)
    returns (states': seq<State>, moves': seq<Move>)
    requires Run(states, moves, unsignedRes)
    requires
      var s := states[|moves|];
      && s.ops == [ReadOf(0)] && |s.ctxs| == 1 && s.ctxs[0].fd == 5
      && |s.ctxs[0].readBuf| == |s.ctxs[0].writeBuf| == BUFFER_SIZE && s.ctxs[0].readBuf[..1] == [104]
      && s.connections == map[5 := 0] && s.maxConnections == 10
      && s.workers == [Worker.Waiting] && s.stack == [] && s.batch == [Completion(0, 1)] && s.finishing == []
    ensures Run(states', moves', unsignedRes)
    ensures
      var s, s' := states[|moves|], states'[|moves'|];
      && s'.ops == [ReadOf(0), Op(Write, 5, 0, |ECHO_PREFIX| + 1)] && |s'.ctxs| == 1
      && |s'.ctxs[0].writeBuf| == BUFFER_SIZE && s'.ctxs[0].writeBuf[..|ECHO_PREFIX| + 1] == ECHO_PREFIX + [104]
      && s'.connections == s.connections && s'.maxConnections == s.maxConnections
      && s'.workers == [Holding(1)] && s'.stack == [] && s'.kernel == s.kernel
      && s'.batch == [] && s'.finishing == [] && s'.traffic == s.traffic
  {
    var c := states[|moves|].ctxs[0];
    assert c.readBuf[1 := 0][..1] == c.readBuf[..1];
    states', moves' := Extend(states, moves, unsignedRes, Dispatch(true));
    assert states'[|moves'|].ctxs[0].writeBuf == Overwrite(c.writeBuf, ECHO_PREFIX + [104]);
    assert states'[|moves'|].stack == [1];
    states', moves' := Extend(states', moves', unsignedRes, Free);
    states', moves' := Extend(states', moves', unsignedRes, WorkerTake(0));
  }

  /** The first connection's echo is written to the second connection's peer, who has sent nothing. */
  lemma AStaleWriteReachesTheNewPeer(unsignedRes: bool)
    ensures exists states: seq<State>, moves: seq<Move> ::
              && Run(states, moves, unsignedRes)
              && var last := states[|moves|];
                 && last.connections == map[5 := 1]
                 && FromPeer(last, 1) == [] && ToPeer(last, 1) == [ECHO_PREFIX + [104]]
                 && !Echoes(FromPeer(last, 1), ToPeer(last, 1))
  {
    var states, moves := FirstEchoTaken(unsignedRes);
    states, moves := Replace(states, moves, unsignedRes);
    states, moves := WriteTheEcho(states, moves, unsignedRes);
    StrayEcho();
  }

  function FirstChunk(): Transfer {
    Transfer(Connection(0), 0, Read, [104])
  }

  function FirstEcho(): Transfer {
    Transfer(Connection(1), 0, Write, ECHO_PREFIX + [104])
  }

  lemma StrayEcho()
    ensures Over([FirstChunk(), FirstEcho()], 1, Read, false) == []
    ensures Over([FirstChunk(), FirstEcho()], 1, Write, false) == [ECHO_PREFIX + [104]]
  {
    var before, t := [FirstChunk()], FirstEcho();
    assert [FirstChunk(), FirstEcho()] == before + [t];
    OverMore(before, t, 1, Read, false);
    OverMore(before, t, 1, Write, false);
    OverMore([], before[0], 1, Read, false);
    OverMore([], before[0], 1, Write, false);
    assert [] + before == before;
  }

  lemma WriteTheEcho(states: seq<State>, moves: seq<Move>, unsignedRes: bool)
    returns (states': seq<State>, moves': seq<Move>)
    requires Run(states, moves, unsignedRes)
    requires
      var s := states[|moves|];
      && s.workers == [Holding(1)] && s.kernel == map[] && s.connections == map[5 := 1]
      && |s.ops| == 3 && s.ops[1] == Op(Write, 5, 0, |ECHO_PREFIX| + 1)
      && |s.ctxs| == 2 && |s.ctxs[0].writeBuf| == BUFFER_SIZE
      && s.ctxs[0].writeBuf[..|ECHO_PREFIX| + 1] == ECHO_PREFIX + [104]
      && s.traffic == [FirstChunk()]
    ensures Run(states', moves', unsignedRes)
    ensures
      var s' := states'[|moves'|];
      s'.connections == map[5 := 1] && s'.traffic == [FirstChunk(), FirstEcho()]
  {
    states', moves' := Extend(states, moves, unsignedRes, WorkerSubmit(0, Submitted));
    assert states'[|moves'|].kernel == map[1 := Connection(1)];
    states', moves' := Extend(states', moves', unsignedRes, KernelWrites(1, |ECHO_PREFIX| + 1));
  }
}
