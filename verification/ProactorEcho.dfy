/**
 What the operations of each connection generation write, against what they have read, in every run.
 Which sockets they act on is the subject of ProactorSockets.
 */
module ProactorEcho {
  import opened Bytes
  import opened Proactor
  import opened ProactorLifecycle

  /** Submitted or waiting to be submitted, and not completed yet. */
  predicate Pending(s: State, o: OpId) {
    o in s.stack || Holding(o) in s.workers || o in s.kernel
  }

  predicate Done(s: State, o: OpId, res: int) {
    Completion(o, res) in s.completed || Completion(o, res) in s.batch
  }

  predicate HasDone(cs: seq<Completion>, o: OpId) {
    exists i :: 0 <= i < |cs| && cs[i].op == o
  }

  /** Not yet handled by the dispatcher. */
  predicate Outstanding(s: State, o: OpId) {
    o < |s.ops| && o !in s.finishing && o !in s.freed
  }

  /** At all times: buffers keep their size, and at most one echo is missing from what was written. */
  predicate CtxOk(c: Ctx) {
    && |c.readBuf| == |c.writeBuf| == BUFFER_SIZE
    && c.echoes <= EchoesOf(c.chunks)
    && |EchoesOf(c.chunks)| <= |c.echoes| + 1
  }

  /** A pending read has nothing left to echo; a pending write is the one missing echo, still in the buffer. */
  predicate PendingOk(op: Op, c: Ctx) {
    && op.fd == c.fd
    && op.size < BUFFER_SIZE <= |c.writeBuf|
    && match op.kind
       case Read => op.size == BUFFER_SIZE - 1 && c.echoes == EchoesOf(c.chunks)
       case Write => c.echoes + [c.writeBuf[..op.size]] == EchoesOf(c.chunks)
  }

  /** A completed read leaves its chunk in the buffer, not echoed yet; a completed write left nothing to echo. */
  predicate DoneOk(op: Op, c: Ctx, res: int) {
    && op.fd == c.fd
    && (if res < 0 then PendingOk(op, c)
        else if res == 0 || op.kind.Write? then c.echoes == EchoesOf(c.chunks)
        else
          && res < BUFFER_SIZE <= |c.readBuf|
          && c.chunks != []
          && c.chunks[|c.chunks| - 1] == c.readBuf[..res]
          && c.echoes == EchoesOf(c.chunks[..|c.chunks| - 1]))
  }

  ghost predicate ContentInv(s: State)
    requires KnownOps(s)
  {
    && (forall g :: 0 <= g < |s.ctxs| ==> CtxOk(s.ctxs[g]))
    && (forall o: OpId :: Pending(s, o) ==> o < |s.ops| && PendingOk(s.ops[o], s.ctxs[s.ops[o].gen]))
    && (forall o: OpId, res :: Done(s, o, res) ==> o < |s.ops| && DoneOk(s.ops[o], s.ctxs[s.ops[o].gen], res))
  }

  /** A connection generation never has two operations on their way. */
  ghost predicate OneEach(s: State) {
    forall o: OpId, p: OpId :: Outstanding(s, o) && Outstanding(s, p) && s.ops[o].gen == s.ops[p].gen ==> o == p
  }

  ghost predicate EchoInv(s: State) {
    Lifecycle(s) && ContentInv(s) && OneEach(s)
  }

  lemma InitialEcho(workers: nat, maxConnections: nat)
    ensures EchoInv(Initial(workers, maxConnections))
  {
    InitialLifecycle(workers, maxConnections);
  }

  function Indicator(b: bool): nat {
    if b then 1 else 0
  }

  /** No operation is in two places. */
  lemma PlacesExclude(s: State, o: OpId)
    requires Lifecycle(s)
    ensures
      Indicator(o in s.stack) + Indicator(Holding(o) in s.workers) + Indicator(o in s.kernel)
      + Indicator(HasDone(s.completed, o)) + Indicator(HasDone(s.batch, o))
      + Indicator(o in s.finishing) + Indicator(o in s.freed) <= Indicator(o < |s.ops|)
  {
    CountPresent(s, o);
    assert Places(s, o) <= Indicator(o < |s.ops|);
    if HasDone(s.completed, o) {
      var i :| 0 <= i < |s.completed| && s.completed[i].op == o;
      assert s.completed[i] in s.completed;
    }
    if HasDone(s.batch, o) {
      var i :| 0 <= i < |s.batch| && s.batch[i].op == o;
      assert s.batch[i] in s.batch;
    }
  }

  /** What is pending or done is outstanding, and not both. */
  lemma Whereabouts(s: State, o: OpId)
    requires Lifecycle(s)
    ensures Pending(s, o) ==> Outstanding(s, o) && !HasDone(s.completed, o) && !HasDone(s.batch, o)
    ensures HasDone(s.completed, o) || HasDone(s.batch, o) ==> Outstanding(s, o)
    ensures forall res :: Done(s, o, res) ==> HasDone(s.completed, o) || HasDone(s.batch, o)
  {
    PlacesExclude(s, o);
  }

  /** Nothing else of its generation is on its way besides an outstanding operation. */
  lemma Alone(s: State, o: OpId)
    requires EchoInv(s) && Outstanding(s, o)
    ensures forall p: OpId :: Pending(s, p) && p != o ==> s.ops[p].gen != s.ops[o].gen
    ensures forall p: OpId, res :: Done(s, p, res) && p != o ==> s.ops[p].gen != s.ops[o].gen
  {
    forall p: OpId | p != o && Pending(s, p)
      ensures s.ops[p].gen != s.ops[o].gen
    {
      Whereabouts(s, p);
    }
    forall p: OpId, res | p != o && Done(s, p, res)
      ensures s.ops[p].gen != s.ops[o].gen
    {
      Whereabouts(s, p);
    }
  }

  // ---- steps that leave the buffers alone ----

  /** A step that creates nothing pending or done, and leaves operations and contexts alone. */
  lemma NothingNew(s: State, s': State)
    requires KnownOps(s) && ContentInv(s) && OneEach(s)
    requires Lifecycle(s') && s'.ops == s.ops && s'.ctxs == s.ctxs
    requires forall o: OpId :: Pending(s', o) ==> Pending(s, o)
    requires forall o: OpId, res :: Done(s', o, res) ==> Done(s, o, res)
    requires forall o: OpId :: Outstanding(s', o) ==> Outstanding(s, o)
    ensures EchoInv(s')
  {
  }

  lemma WorkerEcho(s: State, m: Move, unsignedRes: bool)
    requires Enabled(s, m) && EchoInv(s) && (m.WorkerTake? || m.WorkerSubmit?)
    ensures EchoInv(Next(s, m, unsignedRes))
  {
    var s' := Next(s, m, unsignedRes);
    NextLifecycle(s, m, unsignedRes);
    if m.WorkerSubmit? {
      assert s.workers[m.w] == Holding(s.workers[m.w].op);
      assert forall x :: x in s'.workers ==> x in s.workers || x == Waiting;
    } else {
      assert forall x :: x in s'.workers ==> x in s.workers || x == Holding(s.stack[0]);
    }
    NothingNew(s, s');
  }

  lemma FetchEcho(s: State, n: nat, unsignedRes: bool)
    requires Enabled(s, Fetch(n)) && EchoInv(s)
    ensures EchoInv(Next(s, Fetch(n), unsignedRes))
  {
    NextLifecycle(s, Fetch(n), unsignedRes);
    assert forall c :: c in s.completed[..n] || c in s.completed[n..] ==> c in s.completed;
    NothingNew(s, Next(s, Fetch(n), unsignedRes));
  }

  lemma FreeEcho(s: State, unsignedRes: bool)
    requires Enabled(s, Free) && EchoInv(s)
    ensures EchoInv(Next(s, Free, unsignedRes))
  {
    NextLifecycle(s, Free, unsignedRes);
    NothingNew(s, Next(s, Free, unsignedRes));
  }

  // ---- the kernel ----

  lemma KernelFailsEcho(s: State, o: OpId, error: nat, unsignedRes: bool)
    requires Enabled(s, KernelFails(o, error)) && EchoInv(s)
    ensures EchoInv(Next(s, KernelFails(o, error), unsignedRes))
  {
    var s' := Next(s, KernelFails(o, error), unsignedRes);
    NextLifecycle(s, KernelFails(o, error), unsignedRes);
    assert Pending(s, o);
    var c := s.ctxs[s.ops[o].gen];
    assert CtxOk(c);
    assert s.ctxs[s.ops[o].gen := c] == s.ctxs;
    KernelStepEcho(s, s', o, c, 0 - (error as int));
  }

  /** A kernel step on operation o that changes the context of its generation to c. */
  lemma KernelStepEcho(s: State, s': State, o: OpId, c: Ctx, res: int)
    requires EchoInv(s) && Lifecycle(s') && o in s.kernel && o < |s.ops|
    requires s' == s.(kernel := s.kernel - {o}, completed := s.completed + [Completion(o, res)],
                      ctxs := s.ctxs[s.ops[o].gen := c], traffic := s'.traffic)
    requires CtxOk(c) && DoneOk(s.ops[o], c, res)
    ensures EchoInv(s')
  {
    Whereabouts(s, o);
    Alone(s, o);
    assert s'.completed[|s.completed|].op == o;
    assert HasDone(s'.completed, o);
    forall p: OpId | Pending(s', p)
      ensures p < |s'.ops| && PendingOk(s'.ops[p], s'.ctxs[s'.ops[p].gen])
    {
      Whereabouts(s', p);
      assert Pending(s, p);
    }
    forall p: OpId, r | Done(s', p, r)
      ensures p < |s'.ops| && DoneOk(s'.ops[p], s'.ctxs[s'.ops[p].gen], r)
    {
      Whereabouts(s, p);
      assert Done(s, p, r) || (p == o && r == res);
    }
  }

  lemma KernelReadsEcho(s: State, o: OpId, data: seq<byte>, unsignedRes: bool)
    requires Enabled(s, KernelReads(o, data)) && EchoInv(s)
    ensures EchoInv(Next(s, KernelReads(o, data), unsignedRes))
  {
    var s' := Next(s, KernelReads(o, data), unsignedRes);
    NextLifecycle(s, KernelReads(o, data), unsignedRes);
    assert Pending(s, o);
    var c := s.ctxs[s.ops[o].gen];
    var c' := s'.ctxs[s.ops[o].gen];
    assert CtxOk(c);
    assert c'.readBuf[..|data|] == data;
    if data != [] {
      assert c'.chunks[..|c'.chunks| - 1] == c.chunks;
    }
    KernelStepEcho(s, s', o, c', |data|);
  }

  lemma KernelWritesEcho(s: State, o: OpId, n: nat, unsignedRes: bool)
    requires Enabled(s, KernelWrites(o, n)) && EchoInv(s)
    ensures EchoInv(Next(s, KernelWrites(o, n), unsignedRes))
  {
    var s' := Next(s, KernelWrites(o, n), unsignedRes);
    NextLifecycle(s, KernelWrites(o, n), unsignedRes);
    assert Pending(s, o);
    assert CtxOk(s.ctxs[s.ops[o].gen]);
    KernelStepEcho(s, s', o, s'.ctxs[s.ops[o].gen], n);
  }

  // ---- the dispatcher ----

  /** The handled operation was the only one of its generation, so a new one may follow it. */
  lemma HandledAlone(s: State)
    requires EchoInv(s) && s.batch != []
    ensures
      var o := s.batch[0].op;
      && Done(s, o, s.batch[0].res)
      && Outstanding(s, o)
      && (forall p: OpId :: Pending(s, p) ==> p != o && s.ops[p].gen != s.ops[o].gen)
      && (forall p: OpId, res :: Done(s, p, res) && p != o ==> s.ops[p].gen != s.ops[o].gen)
  {
    var o := s.batch[0].op;
    assert s.batch[0] in s.batch && s.batch[0] == Completion(o, s.batch[0].res);
    assert HasDone(s.batch, o);
    Whereabouts(s, o);
    Alone(s, o);
  }

  /** The state right after a completion was taken up and its operation marked for freeing. */
  function TakenUp(s: State): State
    requires s.batch != []
  {
    s.(batch := s.batch[1..], finishing := [s.batch[0].op])
  }

  /** What the dispatcher knows while it runs a handler for generation g: nothing of g is on its way. */
  ghost predicate Handling(s: State, g: Gen) {
    && KnownOps(s) && ContentInv(s) && OneEach(s)
    && g < |s.ctxs|
    && (forall p: OpId :: Pending(s, p) ==> p < |s.ops| && s.ops[p].gen != g)
    && (forall p: OpId, res :: Done(s, p, res) ==> p < |s.ops| && s.ops[p].gen != g)
    && (forall p: OpId :: Outstanding(s, p) ==> s.ops[p].gen != g)
    && (forall p: OpId :: p >= |s.ops| ==> p !in s.finishing && p !in s.freed)
  }

  lemma TakenUpHandles(s: State)
    requires EchoInv(s) && s.batch != [] && s.finishing == []
    ensures Handling(TakenUp(s), s.ops[s.batch[0].op].gen)
  {
    var o := s.batch[0].op;
    var s1 := TakenUp(s);
    HandledAlone(s);
    forall p: OpId, res | Done(s1, p, res)
      ensures Done(s, p, res) && p != o
    {
      TakeFromBatch(s, o);
      if p == o {
        DoneTwice(s, res);
      }
    }
    forall p: OpId | p >= |s.ops|
      ensures p !in s1.finishing && p !in s1.freed
    {
      PlacesExclude(s, p);
    }
    forall p: OpId
      ensures Pending(s1, p) ==> Pending(s, p)
      ensures Outstanding(s1, p) ==> Outstanding(s, p) && p != o
    {
    }
  }

  /** An operation has one completion only. */
  lemma DoneTwice(s: State, res: int)
    requires EchoInv(s) && s.batch != [] && s.finishing == []
    ensures !Done(TakenUp(s), s.batch[0].op, res)
  {
    var o := s.batch[0].op;
    var s1 := TakenUp(s);
    TakeFromBatch(s, o);
    CountSingle(o, o);
    assert Count([], o) == 0;
    assert Places(s1, o) == Places(s, o) == 1;
    CountPresent(s1, o);
  }

  /** A handler that changes nothing but possibly drops the connection. */
  lemma HandlerDrops(s: State, g: Gen, s': State)
    requires Handling(s, g) && Lifecycle(s')
    requires s' == s || s' == RemoveConnection(s, s.ctxs[g].fd)
    ensures EchoInv(s')
  {
    NothingNew(s, s');
  }

  /** A handler that submits op for its generation, whose context is now c. */
  lemma HandlerSubmits(s: State, g: Gen, c: Ctx, op: Op, alloc: bool)
    requires Handling(s, g) && op.gen == g
    requires CtxOk(c) && PendingOk(op, c)
    requires Lifecycle(SubmitNew(s.(ctxs := s.ctxs[g := c]), op, alloc))
    ensures EchoInv(SubmitNew(s.(ctxs := s.ctxs[g := c]), op, alloc))
  {
    var s' := SubmitNew(s.(ctxs := s.ctxs[g := c]), op, alloc);
    forall p: OpId | Pending(s', p)
      ensures p < |s'.ops| && PendingOk(s'.ops[p], s'.ctxs[s'.ops[p].gen])
    {
      assert Pending(s, p) || p == |s.ops|;
    }
    forall p: OpId, res | Done(s', p, res)
      ensures p < |s'.ops| && DoneOk(s'.ops[p], s'.ctxs[s'.ops[p].gen], res)
    {
      assert Done(s, p, res);
    }
    forall p: OpId, q: OpId | Outstanding(s', p) && Outstanding(s', q) && s'.ops[p].gen == s'.ops[q].gen
      ensures p == q
    {
      if p < |s.ops| {
        assert Outstanding(s, p);
      }
      if q < |s.ops| {
        assert Outstanding(s, q);
      }
    }
  }

  lemma ReadHandlerEcho(s: State, g: Gen, bytes: nat, alloc: bool)
    requires Handling(s, g) && 0 < bytes < BUFFER_SIZE
    requires
      var c := s.ctxs[g];
      && c.chunks != []
      && c.chunks[|c.chunks| - 1] == c.readBuf[..bytes]
      && c.echoes == EchoesOf(c.chunks[..|c.chunks| - 1])
    requires Lifecycle(HandleRead(s, g, bytes, alloc))
    ensures EchoInv(HandleRead(s, g, bytes, alloc))
  {
    var c := s.ctxs[g];
    assert CtxOk(c);
    var readBuf := c.readBuf[bytes := 0];
    var chunk := c.readBuf[..bytes];
    assert readBuf[..bytes] == chunk;
    var c1 := c.(readBuf := readBuf);
    if |ECHO_PREFIX| + bytes < BUFFER_SIZE {
      var echo := ECHO_PREFIX + chunk;
      var c2 := c1.(writeBuf := Overwrite(c.writeBuf, echo));
      assert c2.writeBuf[..|echo|] == echo;
      assert s.(ctxs := s.ctxs[g := c1]).(ctxs := s.ctxs[g := c1][g := c2]) == s.(ctxs := s.ctxs[g := c2]);
      HandlerSubmits(s, g, c2, Op(Write, c.fd, g, |ECHO_PREFIX| + bytes), alloc);
    } else {
      HandlerSubmits(s, g, c1, Op(Read, c.fd, g, BUFFER_SIZE - 1), alloc);
    }
  }

  lemma DispatchEcho(s: State, alloc: bool, unsignedRes: bool)
    requires Enabled(s, Dispatch(alloc)) && EchoInv(s)
    ensures EchoInv(Next(s, Dispatch(alloc), unsignedRes))
  {
    var s' := Next(s, Dispatch(alloc), unsignedRes);
    NextLifecycle(s, Dispatch(alloc), unsignedRes);
    HandledAlone(s);
    TakenUpHandles(s);
    var o, res := s.batch[0].op, s.batch[0].res;
    var op := s.ops[o];
    var s2 := TakenUp(s);
    assert DoneOk(op, s.ctxs[op.gen], res);
    if !Current(s, op) || Resubmits(res, unsignedRes) {
      UnhandledEcho(s, alloc, unsignedRes);
    } else if res <= 0 {
      HandlerDrops(s2, op.gen, s');
    } else if op.kind.Read? {
      ReadHandlerEcho(s2, op.gen, res, alloc);
    } else {
      var c := s.ctxs[op.gen];
      assert CtxOk(c);
      assert s2.(ctxs := s2.ctxs[op.gen := c]) == s2;
      HandlerSubmits(s2, op.gen, c, Op(Read, c.fd, op.gen, BUFFER_SIZE - 1), alloc);
    }
  }

  /** A stale completion is dropped; EAGAIN puts the same operation back on the stack. */
  lemma UnhandledEcho(s: State, alloc: bool, unsignedRes: bool)
    requires Enabled(s, Dispatch(alloc)) && EchoInv(s)
    requires !Current(s, s.ops[s.batch[0].op]) || Resubmits(s.batch[0].res, unsignedRes)
    requires Lifecycle(DispatchOne(s, alloc, unsignedRes))
    ensures EchoInv(DispatchOne(s, alloc, unsignedRes))
  {
    var s' := DispatchOne(s, alloc, unsignedRes);
    var o, res := s.batch[0].op, s.batch[0].res;
    HandledAlone(s);
    assert DoneOk(s.ops[o], s.ctxs[s.ops[o].gen], res);
    forall p: OpId | Pending(s', p)
      ensures p < |s'.ops| && PendingOk(s'.ops[p], s'.ctxs[s'.ops[p].gen])
    {
      assert Pending(s, p) || (p == o && res < 0);
    }
    forall p: OpId, r | Done(s', p, r)
      ensures Done(s, p, r)
    {
    }
  }

  /** A new generation has nothing on its way. */
  lemma ExtensionHandles(s: State, s1: State, c: Ctx)
    requires EchoInv(s) && CtxOk(c)
    requires s1 == s.(ctxs := s.ctxs + [c], connections := s1.connections)
    ensures Handling(s1, |s.ctxs|)
  {
    forall p: OpId
      ensures Pending(s1, p) ==> Pending(s, p)
      ensures Outstanding(s1, p) ==> Outstanding(s, p)
      ensures p >= |s.ops| ==> p !in s1.finishing && p !in s1.freed
    {
      PlacesExclude(s, p);
    }
    forall p: OpId, res
      ensures Done(s1, p, res) ==> Done(s, p, res)
    {
    }
  }

  lemma ConnectEcho(s: State, fd: Fd, handlerAlloc: bool, opAlloc: bool, unsignedRes: bool)
    requires Enabled(s, Connect(fd, handlerAlloc, opAlloc)) && EchoInv(s)
    ensures EchoInv(Next(s, Connect(fd, handlerAlloc, opAlloc), unsignedRes))
  {
    var s' := Next(s, Connect(fd, handlerAlloc, opAlloc), unsignedRes);
    NextLifecycle(s, Connect(fd, handlerAlloc, opAlloc), unsignedRes);
    if !(fd < 0 || fd >= s.maxConnections || fd in s.connections) {
      var g := |s.ctxs|;
      var zeros := seq(BUFFER_SIZE, _ => 0);
      var c := Ctx(fd, zeros, zeros, [], []);
      var s1 := s.(ctxs := s.ctxs + [c], connections := s.connections[fd := g]);
      ExtensionHandles(s, s1, c);
      if handlerAlloc {
        assert s1.(ctxs := s1.ctxs[g := c]) == s1;
        HandlerSubmits(s1, g, c, Op(Read, fd, g, BUFFER_SIZE - 1), opAlloc);
      } else {
        HandlerDrops(s1, g, s');
      }
    }
  }

  lemma NextEcho(s: State, m: Move, unsignedRes: bool)
    requires Enabled(s, m) && EchoInv(s)
    ensures EchoInv(Next(s, m, unsignedRes))
  {
    match m
    case WorkerTake(_) => WorkerEcho(s, m, unsignedRes);
    case WorkerSubmit(_, _) => WorkerEcho(s, m, unsignedRes);
    case KernelReads(o, data) => KernelReadsEcho(s, o, data, unsignedRes);
    case KernelWrites(o, n) => KernelWritesEcho(s, o, n, unsignedRes);
    case KernelFails(o, error) => KernelFailsEcho(s, o, error, unsignedRes);
    case Fetch(n) => FetchEcho(s, n, unsignedRes);
    case Dispatch(alloc) => DispatchEcho(s, alloc, unsignedRes);
    case Free => FreeEcho(s, unsignedRes);
    case Connect(fd, handlerAlloc, opAlloc) => ConnectEcho(s, fd, handlerAlloc, opAlloc, unsignedRes);
    case HangUp(_) =>
      NextLifecycle(s, m, unsignedRes);
      NothingNew(s, Next(s, m, unsignedRes));
  }

  lemma {:induction false} RunEcho(states: seq<State>, moves: seq<Move>, unsignedRes: bool, i: nat)
    requires Run(states, moves, unsignedRes) && i < |states|
    ensures EchoInv(states[i])
    decreases i
  {
    if i == 0 {
      var workers: nat, maxConnections: nat :| states[0] == Initial(workers, maxConnections);
      InitialEcho(workers, maxConnections);
    } else {
      RunEcho(states, moves, unsignedRes, i - 1);
      NextEcho(states[i - 1], moves[i - 1], unsignedRes);
      assert states[i] == Next(states[i - 1], moves[i - 1], unsignedRes);
    }
  }

  /**
   In every run, what the kernel has written for a connection generation is, in order, the echo of each
   chunk it has read for it (of those that fit behind the prefix), with at most the last echo missing.
   */
  lemma EchoesFollowTheChunks(states: seq<State>, moves: seq<Move>, unsignedRes: bool, i: nat, g: Gen)
    requires Run(states, moves, unsignedRes) && i < |states| && g < |states[i].ctxs|
    ensures
      var c := states[i].ctxs[g];
      c.echoes <= EchoesOf(c.chunks) && |EchoesOf(c.chunks)| <= |c.echoes| + 1
  {
    RunEcho(states, moves, unsignedRes, i);
    assert CtxOk(states[i].ctxs[g]);
  }

  /** ... and at any time a generation has at most one operation that is not yet handled. */
  lemma OneOperationPerConnection(states: seq<State>, moves: seq<Move>, unsignedRes: bool, i: nat, o: OpId, p: OpId)
    requires Run(states, moves, unsignedRes) && i < |states|
    requires Outstanding(states[i], o) && Outstanding(states[i], p)
    requires states[i].ops[o].gen == states[i].ops[p].gen
    ensures o == p
  {
    RunEcho(states, moves, unsignedRes, i);
  }

  /** The buffer of a write that is on its way is not touched by anybody. */
  lemma WriteBufferIsStable(s: State, m: Move, unsignedRes: bool, o: OpId)
    requires Enabled(s, m) && EchoInv(s)
    requires Pending(s, o) && s.ops[o].kind.Write?
    ensures Next(s, m, unsignedRes).ctxs[s.ops[o].gen].writeBuf == s.ctxs[s.ops[o].gen].writeBuf
  {
    Whereabouts(s, o);
    match m
    case Dispatch(_) => HandledAlone(s);
    case _ =>
  }
}
