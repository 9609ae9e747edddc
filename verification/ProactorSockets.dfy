/**
 Which sockets the proactor's operations act on, although they name descriptors, which are reused; and
 what each peer gets back of what it sent.
 */
module ProactorSockets {
  import opened Bytes
  import opened Proactor
  import opened ProactorLifecycle
  import opened ProactorEcho

  /** What went over the socket of generation g in one direction, by anybody or by g's own operations only. */
  function Over(ts: seq<Transfer>, g: Gen, kind: Kind, own: bool): seq<seq<byte>> {
    if ts == [] then []
    else
      var k := |ts| - 1;
      var t := ts[k];
      Over(ts[..k], g, kind, own)
      + (if t.socket == Connection(g) && t.kind == kind && (own ==> t.gen == g) then [t.data] else [])
  }

  /** The chunks the peer of generation g has sent, and the buffers written to it. */
  function FromPeer(s: State, g: Gen): seq<seq<byte>> {
    Over(s.traffic, g, Read, false)
  }

  function ToPeer(s: State, g: Gen): seq<seq<byte>> {
    Over(s.traffic, g, Write, false)
  }

  /** `sent` is the echoes of `chunks`, in order, with at most the last one missing. */
  predicate Echoes(chunks: seq<seq<byte>>, sent: seq<seq<byte>>) {
    sent <= EchoesOf(chunks) && |EchoesOf(chunks)| <= |sent| + 1
  }

  /** Not submitted yet: only now does it matter what its descriptor denotes. */
  predicate Waiting(s: State, o: OpId) {
    o in s.stack || Holding(o) in s.workers
  }

  ghost predicate TableInv(s: State) {
    forall fd :: fd in s.connections ==>
      0 <= fd < s.maxConnections && s.connections[fd] < |s.ctxs| && s.ctxs[s.connections[fd]].fd == fd
  }

  /** Operations of a connected generation that are in the kernel act on its socket. */
  ghost predicate KernelInv(s: State)
    requires KnownOps(s)
  {
    forall o :: o in s.kernel ==>
      o < |s.ops| && (Connected(s, s.ops[o].gen) ==> s.kernel[o] == Connection(s.ops[o].gen))
  }

  /** What g's operations have done, they have done on g's socket. */
  predicate Straight(s: State, g: Gen)
    requires g < |s.ctxs|
  {
    && Over(s.traffic, g, Read, true) == s.ctxs[g].chunks
    && Over(s.traffic, g, Write, true) == s.ctxs[g].echoes
  }

  /** ... or g is gone, its last operation went astray, and nothing of g will follow. */
  ghost predicate Ledger(s: State, g: Gen)
    requires KnownOps(s) && g < |s.ctxs|
  {
    || Straight(s, g)
    || (&& !Connected(s, g)
        && (forall o: OpId :: Pending(s, o) ==> o < |s.ops| && s.ops[o].gen != g)
        && Echoes(Over(s.traffic, g, Read, true), Over(s.traffic, g, Write, true)))
  }

  ghost predicate SocketInv(s: State) {
    && EchoInv(s)
    && TableInv(s)
    && KernelInv(s)
    && (forall k :: 0 <= k < |s.traffic| ==> s.traffic[k].gen < |s.ctxs|)
    && (forall g :: 0 <= g < |s.ctxs| ==> Ledger(s, g))
  }

  lemma InitialSockets(workers: nat, maxConnections: nat)
    ensures SocketInv(Initial(workers, maxConnections))
  {
    InitialEcho(workers, maxConnections);
  }

  lemma OverMore(ts: seq<Transfer>, t: Transfer, g: Gen, kind: Kind, own: bool)
    ensures
      Over(ts + [t], g, kind, own) == Over(ts, g, kind, own)
      + (if t.socket == Connection(g) && t.kind == kind && (own ==> t.gen == g) then [t.data] else [])
  {
    assert (ts + [t])[..|ts|] == ts;
  }

  lemma {:induction false} OverNothing(ts: seq<Transfer>, g: Gen, kind: Kind)
    requires forall k :: 0 <= k < |ts| ==> ts[k].gen != g
    ensures Over(ts, g, kind, true) == []
  {
    if ts != [] {
      OverNothing(ts[..|ts| - 1], g, kind);
    }
  }

  /**
   Submitted now, a waiting operation acts on its own generation's socket exactly if that generation is
   still connected: descriptors tell live connections apart, but not live ones from removed ones.
   */
  lemma ResolvesToItsOwnIff(s: State, o: OpId)
    requires EchoInv(s) && TableInv(s) && Pending(s, o)
    ensures Resolve(s, s.ops[o].fd) == Connection(s.ops[o].gen) <==> Connected(s, s.ops[o].gen)
  {
    assert PendingOk(s.ops[o], s.ctxs[s.ops[o].gen]);
  }

  // ---- one step ----

  /** A step that transfers nothing keeps the ledgers, if all that is new on its way is of straight generations. */
  lemma NothingTransferred(s: State, s': State)
    requires SocketInv(s) && EchoInv(s') && s'.traffic == s.traffic && |s.ctxs| <= |s'.ctxs|
    requires forall g :: 0 <= g < |s.ctxs| ==>
               s'.ctxs[g].chunks == s.ctxs[g].chunks && s'.ctxs[g].echoes == s.ctxs[g].echoes
    requires forall g :: 0 <= g < |s.ctxs| && Connected(s', g) ==> Connected(s, g)
    requires forall g :: |s.ctxs| <= g < |s'.ctxs| ==> s'.ctxs[g].chunks == s'.ctxs[g].echoes == []
    requires forall o: OpId :: Pending(s', o) ==>
               || (Pending(s, o) && s'.ops[o] == s.ops[o])
               || s'.ops[o].gen >= |s.ctxs|
               || Straight(s, s'.ops[o].gen)
    ensures forall k :: 0 <= k < |s'.traffic| ==> s'.traffic[k].gen < |s'.ctxs|
    ensures forall g :: 0 <= g < |s'.ctxs| ==> Ledger(s', g)
  {
    forall g | 0 <= g < |s'.ctxs|
      ensures Ledger(s', g)
    {
      if g < |s.ctxs| {
        assert Ledger(s, g);
      } else {
        OverNothing(s.traffic, g, Read);
        OverNothing(s.traffic, g, Write);
      }
    }
  }

  lemma TakeSockets(s: State, w: nat, unsignedRes: bool)
    requires Enabled(s, WorkerTake(w)) && SocketInv(s)
    ensures SocketInv(Next(s, WorkerTake(w), unsignedRes))
  {
    var s' := Next(s, WorkerTake(w), unsignedRes);
    NextEcho(s, WorkerTake(w), unsignedRes);
    assert forall x :: x in s'.workers ==> x in s.workers || x == Holding(s.stack[0]);
    NothingTransferred(s, s');
  }

  lemma SubmitSockets(s: State, w: nat, outcome: Submit, unsignedRes: bool)
    requires Enabled(s, WorkerSubmit(w, outcome)) && SocketInv(s)
    ensures SocketInv(Next(s, WorkerSubmit(w, outcome), unsignedRes))
  {
    var o := s.workers[w].op;
    var s' := Next(s, WorkerSubmit(w, outcome), unsignedRes);
    NextEcho(s, WorkerSubmit(w, outcome), unsignedRes);
    assert s.workers[w] == Holding(o);
    assert Pending(s, o);
    ResolvesToItsOwnIff(s, o);
    assert forall x :: x in s'.workers ==> x in s.workers || x == Worker.Waiting;
    assert s'.connections == s.connections;
    NothingTransferred(s, s');
  }

  lemma QuietSockets(s: State, m: Move, unsignedRes: bool)
    requires Enabled(s, m) && SocketInv(s) && (m.KernelFails? || m.Fetch? || m.Free? || m.HangUp?)
    ensures SocketInv(Next(s, m, unsignedRes))
  {
    NextEcho(s, m, unsignedRes);
    NothingTransferred(s, Next(s, m, unsignedRes));
  }

  /** While one of its operations is on its way, a generation's ledger is straight. */
  lemma StraightWhilePending(s: State, o: OpId)
    requires SocketInv(s) && Pending(s, o)
    ensures o < |s.ops| && Straight(s, s.ops[o].gen)
  {
    assert Ledger(s, s.ops[o].gen);
  }

  /** A transfer by operation o, whose generation's context then holds one more chunk or echo. */
  lemma TransferKeepsLedgers(s: State, s': State, o: OpId, t: Transfer)
    requires SocketInv(s) && EchoInv(s') && o in s.kernel && o < |s.ops|
    requires t.gen == s.ops[o].gen && t.socket == s.kernel[o]
    requires s'.traffic == s.traffic + [t] && s'.ops == s.ops && s'.connections == s.connections
    requires s'.kernel == s.kernel - {o} && s'.stack == s.stack && s'.workers == s.workers
    requires |s'.ctxs| == |s.ctxs|
    requires
      var c := s.ctxs[t.gen];
      s'.ctxs == s.ctxs[t.gen := s'.ctxs[t.gen]]
      && s'.ctxs[t.gen].chunks == c.chunks + (if t.kind.Read? then [t.data] else [])
      && s'.ctxs[t.gen].echoes == c.echoes + (if t.kind.Write? then [t.data] else [])
    requires t.kind == s.ops[o].kind
    ensures forall g :: 0 <= g < |s'.ctxs| ==> Ledger(s', g)
  {
    assert Pending(s, o);
    StraightWhilePending(s, o);
    Whereabouts(s, o);
    Alone(s, o);
    forall p: OpId | Pending(s', p)
      ensures Pending(s, p) && p < |s.ops| && s.ops[p].gen != t.gen
    {
      OneWayToBePending(s, o);
      StraightWhilePending(s, p);
    }
    FewerConnections(s, s');
    forall g | 0 <= g < |s'.ctxs|
      ensures Ledger(s', g)
    {
      OverMore(s.traffic, t, g, Read, true);
      OverMore(s.traffic, t, g, Write, true);
      assert Ledger(s, g);
      if g != t.gen {
        assert Over(s'.traffic, g, Read, true) == Over(s.traffic, g, Read, true);
        assert Over(s'.traffic, g, Write, true) == Over(s.traffic, g, Write, true);
      } else if t.socket == Connection(g) {
        assert Straight(s', g);
      } else {
        assert CtxOk(s.ctxs[g]);
        assert !Connected(s', g);
        assert Over(s'.traffic, g, Read, true) == s.ctxs[g].chunks && Over(s'.traffic, g, Write, true) == s.ctxs[g].echoes;
      }
    }
  }

  lemma OneWayToBePending(s: State, o: OpId)
    requires Lifecycle(s) && o in s.kernel
    ensures o !in s.stack && Holding(o) !in s.workers
  {
    PlacesExclude(s, o);
  }

  lemma KernelSockets(s: State, m: Move, unsignedRes: bool)
    requires Enabled(s, m) && SocketInv(s) && (m.KernelReads? || m.KernelWrites?)
    ensures SocketInv(Next(s, m, unsignedRes))
  {
    var s' := Next(s, m, unsignedRes);
    NextEcho(s, m, unsignedRes);
    var g := s.ops[m.op].gen;
    if m.KernelReads? && m.data == [] {
      NothingTransferred(s, s');
    } else {
      TransferKeepsLedgers(s, s', m.op, s'.traffic[|s.traffic|]);
    }
  }

  /** What the dispatcher does with a completion, as far as connections and ledgers see it. */
  lemma DispatchOutline(s: State, alloc: bool, unsignedRes: bool)
    requires Enabled(s, Dispatch(alloc)) && KnownOps(s)
    ensures
      var o := s.batch[0].op;
      var s', op := DispatchOne(s, alloc, unsignedRes), s.ops[o];
      && s'.traffic == s.traffic && s'.kernel == s.kernel && s'.workers == s.workers
      && s'.maxConnections == s.maxConnections
      && (s'.connections == s.connections || (Current(s, op) && s'.connections == s.connections - {op.fd}))
      && s.ops <= s'.ops
      && (s'.stack == s.stack ||
          (s'.connections == s.connections && Current(s, op) && s'.stack == [s'.stack[0]] + s.stack
           && s'.stack[0] < |s'.ops| && s'.ops[s'.stack[0]].gen == op.gen))
  {
  }

  lemma DispatchRecords(s: State, alloc: bool, unsignedRes: bool)
    requires Enabled(s, Dispatch(alloc)) && KnownOps(s)
    ensures
      var s' := DispatchOne(s, alloc, unsignedRes);
      && |s'.ctxs| == |s.ctxs|
      && (forall g :: 0 <= g < |s.ctxs| ==>
            && s'.ctxs[g].chunks == s.ctxs[g].chunks && s'.ctxs[g].echoes == s.ctxs[g].echoes
            && s'.ctxs[g].fd == s.ctxs[g].fd)
  {
  }

  lemma DispatchSockets(s: State, alloc: bool, unsignedRes: bool)
    requires Enabled(s, Dispatch(alloc)) && SocketInv(s)
    ensures SocketInv(Next(s, Dispatch(alloc), unsignedRes))
  {
    var s' := DispatchOne(s, alloc, unsignedRes);
    DispatchEcho(s, alloc, unsignedRes);
    DispatchOutline(s, alloc, unsignedRes);
    DispatchRecords(s, alloc, unsignedRes);
    var op := s.ops[s.batch[0].op];
    FewerConnections(s, s');
    assert Current(s, op) ==> Connected(s, op.gen);
    assert Ledger(s, op.gen);
    NothingTransferred(s, s');
  }

  lemma FewerConnections(s: State, s': State)
    requires s'.connections == s.connections || exists fd :: s'.connections == s.connections - {fd}
    ensures forall g :: Connected(s', g) ==> Connected(s, g)
  {
  }

  lemma OthersStayConnected(s: State, fd: Fd, handlerAlloc: bool, opAlloc: bool)
    ensures
      var s' := AddConnection(s, fd, handlerAlloc, opAlloc);
      forall g: Gen :: g < |s.ctxs| ==> (Connected(s', g) <==> Connected(s, g))
  {
    var s' := AddConnection(s, fd, handlerAlloc, opAlloc);
    assert forall d :: d in s.connections ==> d in s'.connections && s'.connections[d] == s.connections[d];
  }

  lemma ConnectSockets(s: State, fd: Fd, handlerAlloc: bool, opAlloc: bool, unsignedRes: bool)
    requires Enabled(s, Connect(fd, handlerAlloc, opAlloc)) && SocketInv(s)
    ensures SocketInv(Next(s, Connect(fd, handlerAlloc, opAlloc), unsignedRes))
  {
    var s' := Next(s, Connect(fd, handlerAlloc, opAlloc), unsignedRes);
    ConnectEcho(s, fd, handlerAlloc, opAlloc, unsignedRes);
    OthersStayConnected(s, fd, handlerAlloc, opAlloc);
    ConnectOutline(s, fd, handlerAlloc, opAlloc);
    NothingTransferred(s, s');
  }

  /** What a new connection adds, as far as tables and ledgers see it. */
  lemma ConnectOutline(s: State, fd: Fd, handlerAlloc: bool, opAlloc: bool)
    requires SocketInv(s)
    ensures
      var s' := AddConnection(s, fd, handlerAlloc, opAlloc);
      && TableInv(s') && s.ops <= s'.ops && s.ctxs <= s'.ctxs
      && s'.kernel == s.kernel && s'.traffic == s.traffic && s'.workers == s.workers
      && (forall g :: |s.ctxs| <= g < |s'.ctxs| ==> s'.ctxs[g].chunks == s'.ctxs[g].echoes == [])
      && (forall o: OpId :: o in s'.stack ==> o in s.stack || (o == |s.ops| < |s'.ops| && s'.ops[o].gen == |s.ctxs|))
  {
  }

  lemma NextSockets(s: State, m: Move, unsignedRes: bool)
    requires Enabled(s, m) && SocketInv(s)
    ensures SocketInv(Next(s, m, unsignedRes))
  {
    match m
    case WorkerTake(w) => TakeSockets(s, w, unsignedRes);
    case WorkerSubmit(w, outcome) => SubmitSockets(s, w, outcome, unsignedRes);
    case KernelReads(_, _) => KernelSockets(s, m, unsignedRes);
    case KernelWrites(_, _) => KernelSockets(s, m, unsignedRes);
    case Dispatch(alloc) => DispatchSockets(s, alloc, unsignedRes);
    case Connect(fd, handlerAlloc, opAlloc) => ConnectSockets(s, fd, handlerAlloc, opAlloc, unsignedRes);
    case _ => QuietSockets(s, m, unsignedRes);
  }

  // ---- runs ----

  lemma {:induction false} RunSockets(states: seq<State>, moves: seq<Move>, unsignedRes: bool, i: nat)
    requires Run(states, moves, unsignedRes) && i < |states|
    ensures SocketInv(states[i])
    decreases i
  {
    if i == 0 {
      var workers: nat, maxConnections: nat :| states[0] == Initial(workers, maxConnections);
      InitialSockets(workers, maxConnections);
    } else {
      RunSockets(states, moves, unsignedRes, i - 1);
      NextSockets(states[i - 1], moves[i - 1], unsignedRes);
      assert states[i] == Next(states[i - 1], moves[i - 1], unsignedRes);
    }
  }

  /** This move submits operation o. */
  predicate Submits(s: State, m: Move, o: OpId) {
    m.WorkerSubmit? && m.outcome.Submitted? && m.w < |s.workers| && s.workers[m.w] == Holding(o) && o < |s.ops|
  }

  /** Move j submitted o, an operation of generation g, and o acts on `socket`: its own exactly if g was connected. */
  ghost predicate SubmittedOn(states: seq<State>, moves: seq<Move>, j: nat, o: OpId, g: Gen, socket: Socket) {
    && j < |moves| && j < |states|
    && Submits(states[j], moves[j], o)
    && states[j].ops[o].gen == g
    && socket == Resolve(states[j], states[j].ops[o].fd)
    && (socket == Connection(g) <==> Connected(states[j], g))
  }

  lemma OpsStay(s: State, m: Move, unsignedRes: bool)
    requires Enabled(s, m) && KnownOps(s)
    ensures s.ops <= Next(s, m, unsignedRes).ops
  {
    if m.Dispatch? {
      DispatchOutline(s, m.alloc, unsignedRes);
    }
  }

  /** The kernel only gets operations by submission. */
  lemma KernelGains(s: State, m: Move, unsignedRes: bool, o: OpId)
    requires Enabled(s, m) && KnownOps(s) && o in Next(s, m, unsignedRes).kernel
    ensures
      var s' := Next(s, m, unsignedRes);
      || (o in s.kernel && s'.kernel[o] == s.kernel[o])
      || (Submits(s, m, o) && s'.kernel[o] == Resolve(s, s.ops[o].fd))
  {
    if m.Dispatch? {
      DispatchOutline(s, m.alloc, unsignedRes);
    }
  }

  /**
   In every run, each operation in the kernel was submitted at some step j, and it acts on its own
   generation's socket exactly if that generation was connected at step j.
   */
  lemma {:induction false} ActsOnItsOwnSocketIff(
    states: seq<State>, moves: seq<Move>, unsignedRes: bool, i: nat, o: OpId)
    requires Run(states, moves, unsignedRes) && i < |states| && o in states[i].kernel
    ensures o < |states[i].ops|
    ensures exists j: nat :: j < i && SubmittedOn(states, moves, j, o, states[i].ops[o].gen, states[i].kernel[o])
    decreases i
  {
    RunSockets(states, moves, unsignedRes, i);
    if i == 0 {
      assert false;
    } else {
      var s, m := states[i - 1], moves[i - 1];
      RunSockets(states, moves, unsignedRes, i - 1);
      assert states[i] == Next(s, m, unsignedRes);
      KernelGains(s, m, unsignedRes, o);
      OpsStay(s, m, unsignedRes);
      if o in s.kernel && states[i].kernel[o] == s.kernel[o] {
        ActsOnItsOwnSocketIff(states, moves, unsignedRes, i - 1, o);
        var j: nat :| j < i - 1 && SubmittedOn(states, moves, j, o, s.ops[o].gen, s.kernel[o]);
        assert SubmittedOn(states, moves, j, o, states[i].ops[o].gen, states[i].kernel[o]);
      } else {
        assert Pending(s, o);
        ResolvesToItsOwnIff(s, o);
        assert SubmittedOn(states, moves, i - 1, o, states[i].ops[o].gen, states[i].kernel[o]);
      }
    }
  }

  /** A move that transfers something does it by an operation in the kernel. */
  lemma TrafficGains(s: State, m: Move, unsignedRes: bool)
    requires Enabled(s, m) && KnownOps(s)
    ensures
      var s' := Next(s, m, unsignedRes);
      || s'.traffic == s.traffic
      || (&& (m.KernelReads? || m.KernelWrites?)
          && |s'.traffic| == |s.traffic| + 1 && s.traffic <= s'.traffic
          && s'.traffic[|s.traffic|].gen == s.ops[m.op].gen
          && s'.traffic[|s.traffic|].socket == s.kernel[m.op])
  {
    if m.Dispatch? {
      DispatchOutline(s, m.alloc, unsignedRes);
    }
  }

  /**
   ... so whatever passed over a socket was read or written by an operation submitted earlier, and by one
   of the socket's own generation exactly if the operation's generation was connected at its submission.
   */
  lemma {:induction false} EveryTransferWasSubmitted(
    states: seq<State>, moves: seq<Move>, unsignedRes: bool, i: nat, k: nat)
    requires Run(states, moves, unsignedRes) && i < |states| && k < |states[i].traffic|
    ensures
      var t := states[i].traffic[k];
      exists j: nat, o: OpId :: j < i && SubmittedOn(states, moves, j, o, t.gen, t.socket)
    decreases i
  {
    if i == 0 {
      assert false;
    } else {
      var s, m := states[i - 1], moves[i - 1];
      assert states[i] == Next(s, m, unsignedRes);
      TrafficGains(s, m, unsignedRes);
      var t := states[i].traffic[k];
      if k < |s.traffic| {
        assert s.traffic[k] == t;
        EveryTransferWasSubmitted(states, moves, unsignedRes, i - 1, k);
      } else {
        ActsOnItsOwnSocketIff(states, moves, unsignedRes, i - 1, m.op);
        var j: nat :| j < i - 1 && SubmittedOn(states, moves, j, m.op, s.ops[m.op].gen, s.kernel[m.op]);
        assert SubmittedOn(states, moves, j, m.op, t.gen, t.socket);
      }
    }
  }

  /**
   In every run: what a generation's own operations have written to its socket are, in order, the echoes
   of what they have read from it, at most the last one missing.
   */
  lemma OwnOperationsEcho(states: seq<State>, moves: seq<Move>, unsignedRes: bool, i: nat, g: Gen)
    requires Run(states, moves, unsignedRes) && i < |states| && g < |states[i].ctxs|
    ensures Echoes(Over(states[i].traffic, g, Read, true), Over(states[i].traffic, g, Write, true))
  {
    RunSockets(states, moves, unsignedRes, i);
    assert Ledger(states[i], g) && CtxOk(states[i].ctxs[g]);
  }

  /** Up to step i, no operation of another generation was submitted while its descriptor denoted g's socket. */
  ghost predicate OnlyItsOwn(states: seq<State>, moves: seq<Move>, i: nat, g: Gen)
    requires i <= |moves| < |states|
  {
    forall j: nat, o: OpId :: j < i && Submits(states[j], moves[j], o) ==>
      (Resolve(states[j], states[j].ops[o].fd) == Connection(g) ==> states[j].ops[o].gen == g)
  }

  lemma {:induction false} OwnIsAll(ts: seq<Transfer>, g: Gen, kind: Kind)
    requires forall k :: 0 <= k < |ts| && ts[k].socket == Connection(g) ==> ts[k].gen == g
    ensures Over(ts, g, kind, false) == Over(ts, g, kind, true)
  {
    if ts != [] {
      OwnIsAll(ts[..|ts| - 1], g, kind);
    }
  }

  /**
   Per socket: as long as only a connection's own operations are submitted on its socket, its peer gets,
   in order, the echo of each chunk it sends (of those that fit), at most the last one missing.
   */
  lemma PeerGetsItsEchoes(states: seq<State>, moves: seq<Move>, unsignedRes: bool, i: nat, g: Gen)
    requires Run(states, moves, unsignedRes) && i < |states| && g < |states[i].ctxs|
    requires OnlyItsOwn(states, moves, i, g)
    ensures Echoes(FromPeer(states[i], g), ToPeer(states[i], g))
  {
    var ts := states[i].traffic;
    forall k | 0 <= k < |ts| && ts[k].socket == Connection(g)
      ensures ts[k].gen == g
    {
      EveryTransferWasSubmitted(states, moves, unsignedRes, i, k);
      var j: nat, o: OpId :| j < i && SubmittedOn(states, moves, j, o, ts[k].gen, ts[k].socket);
    }
    OwnOperationsEcho(states, moves, unsignedRes, i, g);
    OwnIsAll(ts, g, Read);
    OwnIsAll(ts, g, Write);
  }

  // ---- when operations are left behind ----

  /** Every operation not submitted yet belongs to a connected generation. */
  ghost predicate NoneStranded(s: State)
    requires KnownOps(s)
  {
    forall o: OpId :: Waiting(s, o) ==> o < |s.ops| && Connected(s, s.ops[o].gen)
  }

  /** A hang-up that finds the connection's operation on the stack or in a worker's hands. */
  ghost predicate HangsUpTooEarly(s: State, m: Move) {
    && m.HangUp? && m.fd in s.connections
    && exists o: OpId :: Waiting(s, o) && o < |s.ops| && s.ops[o].gen == s.connections[m.fd]
  }

  lemma ConnectionsKept(s: State, s': State)
    requires forall fd :: fd in s.connections ==> fd in s'.connections && s'.connections[fd] == s.connections[fd]
    ensures forall g: Gen :: Connected(s, g) ==> Connected(s', g)
  {
  }

  /** Removing a connection disconnects its generation and no other. */
  lemma RemovalDisconnects(s: State, fd: Fd)
    requires TableInv(s)
    ensures forall g: Gen :: Connected(RemoveConnection(s, fd), g) <==>
              Connected(s, g) && !(fd in s.connections && s.connections[fd] == g)
  {
    var s' := RemoveConnection(s, fd);
    forall g: Gen | Connected(s, g) && !(fd in s.connections && s.connections[fd] == g)
      ensures Connected(s', g)
    {
      var d :| d in s.connections && s.connections[d] == g;
      assert d in s'.connections;
    }
  }

  lemma DispatchStrandsNone(s: State, alloc: bool, unsignedRes: bool)
    requires Enabled(s, Dispatch(alloc)) && SocketInv(s) && NoneStranded(s)
    ensures KnownOps(DispatchOne(s, alloc, unsignedRes)) && NoneStranded(DispatchOne(s, alloc, unsignedRes))
  {
    var s' := DispatchOne(s, alloc, unsignedRes);
    DispatchKnownOps(s, alloc, unsignedRes);
    DispatchOutline(s, alloc, unsignedRes);
    HandledAlone(s);
    var op := s.ops[s.batch[0].op];
    RemovalDisconnects(s, op.fd);
    assert Current(s, op) ==> Connected(s, op.gen);
    forall o: OpId | Waiting(s', o)
      ensures o < |s'.ops| && Connected(s', s'.ops[o].gen)
    {
      if Waiting(s, o) {
        assert Pending(s, o);
      } else {
        assert o == s'.stack[0];
      }
    }
  }

  lemma ConnectStrandsNone(s: State, fd: Fd, handlerAlloc: bool, opAlloc: bool)
    requires SocketInv(s) && NoneStranded(s)
    ensures
      KnownOps(AddConnection(s, fd, handlerAlloc, opAlloc)) && NoneStranded(AddConnection(s, fd, handlerAlloc, opAlloc))
  {
    var s' := AddConnection(s, fd, handlerAlloc, opAlloc);
    ConnectKnownOps(s, fd, handlerAlloc, opAlloc);
    ConnectionsKept(s, s');
    forall o: OpId | Waiting(s', o)
      ensures o < |s'.ops| && Connected(s', s'.ops[o].gen)
    {
      if Waiting(s, o) {
        assert Connected(s, s.ops[o].gen);
      } else {
        assert o == |s.ops| && s'.connections[fd] == |s.ctxs|;
      }
    }
  }

  lemma HangUpStrandsIff(s: State, fd: Fd)
    requires SocketInv(s) && NoneStranded(s)
    ensures KnownOps(RemoveConnection(s, fd))
    ensures NoneStranded(RemoveConnection(s, fd)) <==> !HangsUpTooEarly(s, HangUp(fd))
  {
    RemovalDisconnects(s, fd);
    var s' := RemoveConnection(s, fd);
    assert forall o: OpId :: Waiting(s', o) <==> Waiting(s, o);
  }

  lemma WorkerStrandsNone(s: State, m: Move, unsignedRes: bool)
    requires Enabled(s, m) && SocketInv(s) && NoneStranded(s) && (m.WorkerTake? || m.WorkerSubmit?)
    ensures KnownOps(Next(s, m, unsignedRes)) && NoneStranded(Next(s, m, unsignedRes))
  {
    var s' := Next(s, m, unsignedRes);
    NextKnownOps(s, m, unsignedRes);
    ConnectionsKept(s, s');
    forall o: OpId | Waiting(s', o)
      ensures Waiting(s, o)
    {
      if m.WorkerSubmit? {
        assert s.workers[m.w] == Holding(s.workers[m.w].op);
        assert forall x :: x in s'.workers ==> x in s.workers || x == Worker.Waiting;
      } else {
        assert forall x :: x in s'.workers ==> x in s.workers || x == Holding(s.stack[0]);
      }
    }
  }

  /**
   Operations are stranded by nothing else: a step leaves some operation waiting for a removed connection
   exactly if it is a hang-up that finds the connection's operation not submitted yet.
   */
  lemma StrandedExactlyByHangUps(s: State, m: Move, unsignedRes: bool)
    requires Enabled(s, m) && SocketInv(s) && NoneStranded(s)
    ensures KnownOps(Next(s, m, unsignedRes))
    ensures NoneStranded(Next(s, m, unsignedRes)) <==> !HangsUpTooEarly(s, m)
  {
    NextKnownOps(s, m, unsignedRes);
    match m
    case WorkerTake(_) => WorkerStrandsNone(s, m, unsignedRes);
    case WorkerSubmit(_, _) => WorkerStrandsNone(s, m, unsignedRes);
    case Dispatch(alloc) => DispatchStrandsNone(s, alloc, unsignedRes);
    case Connect(fd, handlerAlloc, opAlloc) => ConnectStrandsNone(s, fd, handlerAlloc, opAlloc);
    case HangUp(fd) => HangUpStrandsIff(s, fd);
    case _ =>
      ConnectionsKept(s, Next(s, m, unsignedRes));
      assert forall o: OpId :: Waiting(Next(s, m, unsignedRes), o) ==> Waiting(s, o);
  }

  lemma {:induction false} RunStrandsNone(states: seq<State>, moves: seq<Move>, unsignedRes: bool, i: nat)
    requires Run(states, moves, unsignedRes) && i < |states|
    requires forall j :: 0 <= j < i ==> !HangsUpTooEarly(states[j], moves[j])
    ensures SocketInv(states[i]) && NoneStranded(states[i])
    decreases i
  {
    RunSockets(states, moves, unsignedRes, i);
    if i == 0 {
      var workers: nat, maxConnections: nat :| states[0] == Initial(workers, maxConnections);
    } else {
      RunStrandsNone(states, moves, unsignedRes, i - 1);
      StrandedExactlyByHangUps(states[i - 1], moves[i - 1], unsignedRes);
      assert states[i] == Next(states[i - 1], moves[i - 1], unsignedRes);
    }
  }

  /**
   If no hang-up comes before the connection's operation is submitted, every operation acts on its own
   socket, and every peer gets its own echoes, in order.
   */
  lemma EveryPeerGetsItsEchoes(states: seq<State>, moves: seq<Move>, unsignedRes: bool, i: nat, g: Gen)
    requires Run(states, moves, unsignedRes) && i < |states| && g < |states[i].ctxs|
    requires forall j :: 0 <= j < i ==> !HangsUpTooEarly(states[j], moves[j])
    ensures forall k :: 0 <= k < |states[i].traffic| ==>
              states[i].traffic[k].socket == Connection(states[i].traffic[k].gen)
    ensures Echoes(FromPeer(states[i], g), ToPeer(states[i], g))
  {
    forall j: nat, o: OpId | j < i && Submits(states[j], moves[j], o)
      ensures Resolve(states[j], states[j].ops[o].fd) == Connection(states[j].ops[o].gen)
    {
      RunStrandsNone(states, moves, unsignedRes, j);
      assert Waiting(states[j], o) && Pending(states[j], o);
      ResolvesToItsOwnIff(states[j], o);
    }
    forall k | 0 <= k < |states[i].traffic|
      ensures states[i].traffic[k].socket == Connection(states[i].traffic[k].gen)
    {
      EveryTransferWasSubmitted(states, moves, unsignedRes, i, k);
      var t := states[i].traffic[k];
      var j: nat, o: OpId :| j < i && SubmittedOn(states, moves, j, o, t.gen, t.socket);
    }
    PeerGetsItsEchoes(states, moves, unsignedRes, i, g);
  }
}
