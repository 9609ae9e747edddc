/**
 That the proactor keeps serving: which connections are admitted and removed, and exactly when a connected
 one has no operation on its way any more.
 */
module ProactorProgress {
  import opened Proactor
  import opened ProactorLifecycle
  import opened ProactorEcho
  import opened ProactorSockets

  // ---- who is connected ----

  /** The completion about to be handled belongs to g, is not to be resubmitted, and reports end of file or an error. */
  predicate EndsOrFails(s: State, g: Gen, unsignedRes: bool)
    requires KnownOps(s)
  {
    && s.batch != []
    && s.ops[s.batch[0].op].gen == g
    && s.batch[0].res <= 0 && !Resubmits(s.batch[0].res, unsignedRes)
  }

  predicate Removes(s: State, m: Move, unsignedRes: bool, g: Gen)
    requires KnownOps(s)
  {
    || (m.HangUp? && m.fd in s.connections && s.connections[m.fd] == g)
    || (m.Dispatch? && EndsOrFails(s, g, unsignedRes))
  }

  /** Completions are matched to live connections by descriptor and context: exactly what is connected is current. */
  lemma CurrentIffConnected(s: State)
    requires SocketInv(s) && s.batch != []
    ensures
      var op := s.ops[s.batch[0].op];
      Current(s, op) <==> Connected(s, op.gen)
  {
    var o := s.batch[0].op;
    HandledAlone(s);
    assert DoneOk(s.ops[o], s.ctxs[s.ops[o].gen], s.batch[0].res);
  }

  lemma DispatchRemovesIff(s: State, alloc: bool, unsignedRes: bool, g: Gen)
    requires Enabled(s, Dispatch(alloc)) && SocketInv(s) && Connected(s, g)
    ensures Connected(DispatchOne(s, alloc, unsignedRes), g) <==> !EndsOrFails(s, g, unsignedRes)
  {
    var op, res := s.ops[s.batch[0].op], s.batch[0].res;
    CurrentIffConnected(s);
    RemovalDisconnects(s, op.fd);
    if Current(s, op) && !Resubmits(res, unsignedRes) && res <= 0 {
      assert DispatchOne(s, alloc, unsignedRes).connections == RemoveConnection(s, op.fd).connections;
    } else {
      assert DispatchOne(s, alloc, unsignedRes).connections == s.connections;
    }
  }

  /**
   A connection stays until a hang-up on its descriptor, or until the end of file or an error of one of
   its own operations is handled; EAGAIN that is resubmitted does not count.
   */
  lemma StaysConnectedIff(s: State, m: Move, unsignedRes: bool, g: Gen)
    requires Enabled(s, m) && SocketInv(s) && Connected(s, g)
    ensures Connected(Next(s, m, unsignedRes), g) <==> !Removes(s, m, unsignedRes, g)
  {
    match m
    case Dispatch(alloc) => DispatchRemovesIff(s, alloc, unsignedRes, g);
    case HangUp(fd) => RemovalDisconnects(s, fd);
    case Connect(fd, handlerAlloc, opAlloc) => OthersStayConnected(s, fd, handlerAlloc, opAlloc);
    case _ => SameConnections(s, Next(s, m, unsignedRes));
  }

  lemma SameConnections(s: State, s': State)
    requires s'.connections == s.connections
    ensures forall g: Gen :: Connected(s', g) <==> Connected(s, g)
  {
  }

  predicate Admits(s: State, m: Move) {
    m.Connect? && 0 <= m.fd < s.maxConnections && m.fd !in s.connections
  }

  lemma AdmissionConnects(s: State, fd: Fd, handlerAlloc: bool, opAlloc: bool)
    requires SocketInv(s)
    ensures
      var s' := AddConnection(s, fd, handlerAlloc, opAlloc);
      && (|s'.ctxs| > |s.ctxs| <==> Admits(s, Connect(fd, handlerAlloc, opAlloc)))
      && |s.ctxs| <= |s'.ctxs| <= |s.ctxs| + 1
      && (Connected(s', |s.ctxs|) <==> Admits(s, Connect(fd, handlerAlloc, opAlloc)) && handlerAlloc)
  {
    var s' := AddConnection(s, fd, handlerAlloc, opAlloc);
    var g := |s.ctxs|;
    if Admits(s, Connect(fd, handlerAlloc, opAlloc)) && handlerAlloc {
      assert s'.connections[fd] == g;
    }
  }

  /** A generation comes to be connected only by an admitted connection whose handler could be allocated. */
  lemma BecomesConnectedIff(s: State, m: Move, unsignedRes: bool, g: Gen)
    requires Enabled(s, m) && SocketInv(s) && !Connected(s, g)
    ensures Connected(Next(s, m, unsignedRes), g) <==> Admits(s, m) && m.handlerAlloc && g == |s.ctxs|
  {
    var s' := Next(s, m, unsignedRes);
    match m
    case Dispatch(alloc) =>
      DispatchOutline(s, alloc, unsignedRes);
      FewerConnections(s, s');
    case HangUp(fd) => FewerConnections(s, s');
    case Connect(fd, handlerAlloc, opAlloc) =>
      AdmissionConnects(s, fd, handlerAlloc, opAlloc);
      if g < |s.ctxs| {
        OthersStayConnected(s, fd, handlerAlloc, opAlloc);
      } else if g > |s.ctxs| {
        assert forall d :: d in s'.connections ==> s'.connections[d] <= |s.ctxs|;
      }
    case _ => SameConnections(s, s');
  }

  // ---- who is served ----

  /** Some operation of generation g is on its way: waiting, in the kernel, or completed and not handled. */
  ghost predicate Served(s: State, g: Gen) {
    exists o: OpId :: Outstanding(s, o) && s.ops[o].gen == g
  }

  /** This move loses g's operation: its submission fails, or a handler of g asks for an operation and gets none. */
  predicate Abandons(s: State, m: Move, unsignedRes: bool, g: Gen)
    requires Enabled(s, m) && KnownOps(s)
  {
    match m
    case WorkerSubmit(w, outcome) => outcome.SubmitFails? && s.ops[s.workers[w].op].gen == g
    case Dispatch(alloc) =>
      !alloc && s.ops[s.batch[0].op].gen == g && Current(s, s.ops[s.batch[0].op]) && s.batch[0].res > 0
    case Connect(_, _, opAlloc) => !opAlloc && Admits(s, m) && g == |s.ctxs|
    case _ => false
  }

  lemma SameOutstanding(s: State, s': State, g: Gen)
    requires forall o: OpId :: Outstanding(s', o) <==> Outstanding(s, o)
    requires forall o: OpId :: Outstanding(s, o) ==> o < |s'.ops| && s'.ops[o] == s.ops[o]
    ensures Served(s', g) <==> Served(s, g)
  {
  }

  lemma SubmissionServes(s: State, w: nat, outcome: Submit, unsignedRes: bool, g: Gen)
    requires Enabled(s, WorkerSubmit(w, outcome)) && EchoInv(s)
    ensures
      Served(Next(s, WorkerSubmit(w, outcome), unsignedRes), g) <==>
      Served(s, g) && !Abandons(s, WorkerSubmit(w, outcome), unsignedRes, g)
  {
    var s' := Next(s, WorkerSubmit(w, outcome), unsignedRes);
    var o := s.workers[w].op;
    assert s.workers[w] == Holding(o);
    Whereabouts(s, o);
    if outcome.SubmitFails? {
      assert forall p: OpId :: Outstanding(s', p) <==> Outstanding(s, p) && p != o;
      OneFewer(s, s', o, g);
    } else {
      SameOutstanding(s, s', g);
    }
  }

  /** When an operation goes, its generation is left with none, and the others keep theirs. */
  lemma OneFewer(s: State, s': State, o: OpId, g: Gen)
    requires OneEach(s) && Outstanding(s, o)
    requires forall p: OpId :: Outstanding(s', p) <==> Outstanding(s, p) && p != o
    requires forall p: OpId :: Outstanding(s', p) ==> s'.ops[p] == s.ops[p]
    ensures Served(s', g) <==> Served(s, g) && s.ops[o].gen != g
  {
    if Served(s, g) && s.ops[o].gen != g {
      var p: OpId :| Outstanding(s, p) && s.ops[p].gen == g;
      assert Outstanding(s', p) && s'.ops[p].gen == g;
    }
  }

  /** The dispatcher's bookkeeping: the handled operation is done with, and an allocated one follows it. */
  lemma DispatchOutstanding(s: State, alloc: bool, unsignedRes: bool)
    requires Enabled(s, Dispatch(alloc)) && EchoInv(s)
    ensures
      var o, res, s' := s.batch[0].op, s.batch[0].res, DispatchOne(s, alloc, unsignedRes);
      var op := s.ops[o];
      if Current(s, op) && Resubmits(res, unsignedRes) then
        s'.ops == s.ops && forall p: OpId :: Outstanding(s', p) <==> Outstanding(s, p)
      else if Current(s, op) && res > 0 && alloc then
        && |s'.ops| == |s.ops| + 1 && s.ops <= s'.ops && s'.ops[|s.ops|].gen == op.gen
        && Outstanding(s', |s.ops|)
        && forall p: OpId :: p != |s.ops| ==> (Outstanding(s', p) <==> Outstanding(s, p) && p != o)
      else
        s'.ops == s.ops && forall p: OpId :: Outstanding(s', p) <==> Outstanding(s, p) && p != o
  {
    var o := s.batch[0].op;
    HandledAlone(s);
    PlacesExclude(s, |s.ops|);
  }

  lemma DispatchServes(s: State, alloc: bool, unsignedRes: bool, g: Gen)
    requires Enabled(s, Dispatch(alloc)) && SocketInv(s)
    requires Connected(s, g) && Connected(DispatchOne(s, alloc, unsignedRes), g)
    ensures
      Served(DispatchOne(s, alloc, unsignedRes), g) <==>
      Served(s, g) && !Abandons(s, Dispatch(alloc), unsignedRes, g)
  {
    var s' := DispatchOne(s, alloc, unsignedRes);
    var o, res := s.batch[0].op, s.batch[0].res;
    var op := s.ops[o];
    HandledAlone(s);
    CurrentIffConnected(s);
    DispatchRemovesIff(s, alloc, unsignedRes, g);
    DispatchOutstanding(s, alloc, unsignedRes);
    if Current(s, op) && Resubmits(res, unsignedRes) {
      SameOutstanding(s, s', g);
    } else if Current(s, op) && res > 0 && alloc {
      if g == op.gen {
        assert Outstanding(s', |s.ops|);
      } else {
        assert forall p: OpId :: Outstanding(s, p) && s.ops[p].gen == g ==> Outstanding(s', p) && s'.ops[p] == s.ops[p];
        assert forall p: OpId :: Outstanding(s', p) && s'.ops[p].gen == g ==> Outstanding(s, p) && s.ops[p].gen == g;
      }
    } else {
      OneFewer(s, s', o, g);
    }
  }

  lemma ConnectServesOthers(s: State, fd: Fd, handlerAlloc: bool, opAlloc: bool, g: Gen)
    requires EchoInv(s) && g < |s.ctxs|
    ensures Served(AddConnection(s, fd, handlerAlloc, opAlloc), g) <==> Served(s, g)
  {
    var s' := AddConnection(s, fd, handlerAlloc, opAlloc);
    assert s.ops <= s'.ops;
    assert forall p: OpId :: Outstanding(s, p) ==> Outstanding(s', p) && s'.ops[p] == s.ops[p];
    assert forall p: OpId :: Outstanding(s', p) && s'.ops[p].gen == g ==> Outstanding(s, p);
  }

  /** What one step does for a generation that is and stays connected. */
  lemma StillServedIff(s: State, m: Move, unsignedRes: bool, g: Gen)
    requires Enabled(s, m) && SocketInv(s)
    requires Connected(s, g) && Connected(Next(s, m, unsignedRes), g)
    ensures Served(Next(s, m, unsignedRes), g) <==> Served(s, g) && !Abandons(s, m, unsignedRes, g)
  {
    var s' := Next(s, m, unsignedRes);
    match m
    case WorkerSubmit(w, outcome) => SubmissionServes(s, w, outcome, unsignedRes, g);
    case Dispatch(alloc) => DispatchServes(s, alloc, unsignedRes, g);
    case Connect(fd, handlerAlloc, opAlloc) => ConnectServesOthers(s, fd, handlerAlloc, opAlloc, g);
    case _ => SameOutstanding(s, s', g);
  }

  /** A new connection is served from the start exactly if its first read could be allocated. */
  lemma ServedFromTheStartIff(s: State, fd: Fd, opAlloc: bool)
    requires SocketInv(s) && Admits(s, Connect(fd, true, opAlloc))
    ensures Served(AddConnection(s, fd, true, opAlloc), |s.ctxs|) <==> opAlloc
  {
    var s' := AddConnection(s, fd, true, opAlloc);
    PlacesExclude(s, |s.ops|);
    if opAlloc {
      assert Outstanding(s', |s.ops|) && s'.ops[|s.ops|].gen == |s.ctxs|;
    }
  }

  lemma CtxsGrow(s: State, m: Move, unsignedRes: bool)
    requires Enabled(s, m) && SocketInv(s)
    ensures |Next(s, m, unsignedRes).ctxs| == |s.ctxs| + (if Admits(s, m) then 1 else 0)
  {
    match m
    case Dispatch(alloc) => DispatchRecords(s, alloc, unsignedRes);
    case Connect(fd, handlerAlloc, opAlloc) => AdmissionConnects(s, fd, handlerAlloc, opAlloc);
    case _ =>
  }

  ghost predicate AbandonedBefore(states: seq<State>, moves: seq<Move>, unsignedRes: bool, i: nat, g: Gen)
    requires Run(states, moves, unsignedRes) && i < |states|
  {
    exists j: nat :: j < i && Abandons(states[j], moves[j], unsignedRes, g)
  }

  lemma {:induction false} NothingBeforeTheStart(states: seq<State>, moves: seq<Move>, unsignedRes: bool, i: nat, g: Gen)
    requires Run(states, moves, unsignedRes) && i < |states| && g >= |states[i].ctxs|
    ensures !AbandonedBefore(states, moves, unsignedRes, i, g)
    decreases i
  {
    if i > 0 {
      RunSockets(states, moves, unsignedRes, i - 1);
      CtxsGrow(states[i - 1], moves[i - 1], unsignedRes);
      assert states[i] == Next(states[i - 1], moves[i - 1], unsignedRes);
      NothingBeforeTheStart(states, moves, unsignedRes, i - 1, g);
      assert !Abandons(states[i - 1], moves[i - 1], unsignedRes, g);
    }
  }

  lemma MoreAbandoned(states: seq<State>, moves: seq<Move>, unsignedRes: bool, i: nat, g: Gen)
    requires Run(states, moves, unsignedRes) && i < |moves|
    ensures
      AbandonedBefore(states, moves, unsignedRes, i + 1, g) <==>
      AbandonedBefore(states, moves, unsignedRes, i, g) || Abandons(states[i], moves[i], unsignedRes, g)
  {
  }

  /**
   In every run a connected generation has an operation on its way, unless one of its submissions failed
   or one of its operations could not be allocated; and then it never has one again.
   */
  lemma {:induction false} ConnectionsAreServedIff(
    states: seq<State>, moves: seq<Move>, unsignedRes: bool, i: nat, g: Gen)
    requires Run(states, moves, unsignedRes) && i < |states| && Connected(states[i], g)
    ensures Served(states[i], g) <==> !AbandonedBefore(states, moves, unsignedRes, i, g)
    decreases i
  {
    if i == 0 {
      assert false;
    } else {
      var s, m := states[i - 1], moves[i - 1];
      RunSockets(states, moves, unsignedRes, i - 1);
      assert states[i] == Next(s, m, unsignedRes);
      MoreAbandoned(states, moves, unsignedRes, i - 1, g);
      if Connected(s, g) {
        ConnectionsAreServedIff(states, moves, unsignedRes, i - 1, g);
        StillServedIff(s, m, unsignedRes, g);
      } else {
        BecomesConnectedIff(s, m, unsignedRes, g);
        NothingBeforeTheStart(states, moves, unsignedRes, i - 1, g);
        ServedFromTheStartIff(s, m.fd, m.opAlloc);
      }
    }
  }

  // ---- where operations go ----

  datatype Place = OnStack | Held | InKernel | Complete | InBatch | Finishing | Freed

  /** An operation is in exactly one place (ProactorLifecycle); this is it. */
  predicate Is(s: State, o: OpId, p: Place) {
    match p
    case OnStack => o in s.stack
    case Held => Holding(o) in s.workers
    case InKernel => o in s.kernel
    case Complete => HasDone(s.completed, o)
    case InBatch => HasDone(s.batch, o)
    case Finishing => o in s.finishing
    case Freed => o in s.freed
  }

  lemma OnlyOnePlace(s: State, o: OpId, p: Place, q: Place)
    requires Lifecycle(s) && Is(s, o, p) && Is(s, o, q)
    ensures p == q
  {
    PlacesExclude(s, o);
  }

  /** Which operation a move is about. */
  predicate About(s: State, m: Move, o: OpId)
    requires Enabled(s, m)
  {
    match m
    case WorkerTake(_) => o == s.stack[0]
    case WorkerSubmit(w, _) => o == s.workers[w].op
    case KernelReads(x, _) => o == x
    case KernelWrites(x, _) => o == x
    case KernelFails(x, _) => o == x
    case Fetch(n) => HasDone(s.completed[..n], o)
    case Dispatch(_) => o == s.batch[0].op
    case Free => o == s.finishing[0]
    case _ => false
  }

  /** Where it takes that operation: one place on, except that EAGAIN sends it back to the stack. */
  ghost predicate Leads(s: State, m: Move, unsignedRes: bool, p: Place)
    requires Enabled(s, m) && KnownOps(s)
  {
    match m
    case WorkerTake(_) => p == Held
    case WorkerSubmit(_, outcome) =>
      p == (if outcome.Submitted? then InKernel else if outcome.SubmitAgain? then OnStack else Place.Freed)
    case Fetch(_) => p == InBatch
    case Dispatch(_) =>
      p == (if !Connected(s, s.ops[s.batch[0].op].gen) then Place.Freed
            else if Resubmits(s.batch[0].res, unsignedRes) then OnStack
            else Place.Finishing)
    case Free => p == Place.Freed
    case _ => p == Complete
  }

  lemma EveryMoveMovesItsOperation(s: State, m: Move, unsignedRes: bool, o: OpId, p: Place)
    requires Enabled(s, m) && SocketInv(s) && About(s, m, o) && Leads(s, m, unsignedRes, p)
    ensures Is(Next(s, m, unsignedRes), o, p)
    ensures forall q :: Is(Next(s, m, unsignedRes), o, q) ==> q == p
  {
    var s' := Next(s, m, unsignedRes);
    NextLifecycle(s, m, unsignedRes);
    match m {
      case WorkerTake(w) => assert s'.workers[w] == Holding(o);
      case KernelReads(_, _) => assert s'.completed[|s.completed|].op == o;
      case KernelWrites(_, _) => assert s'.completed[|s.completed|].op == o;
      case KernelFails(_, _) => assert s'.completed[|s.completed|].op == o;
      case Dispatch(alloc) => DispatchMoves(s, alloc, unsignedRes);
      case _ =>
    }
    forall q | Is(s', o, q)
      ensures q == p
    {
      OnlyOnePlace(s', o, p, q);
    }
  }

  lemma DispatchMoves(s: State, alloc: bool, unsignedRes: bool)
    requires Enabled(s, Dispatch(alloc)) && SocketInv(s)
    ensures
      var o, s' := s.batch[0].op, DispatchOne(s, alloc, unsignedRes);
      && s'.batch == s.batch[1..]
      && if !Connected(s, s.ops[o].gen) then o in s'.freed
         else if Resubmits(s.batch[0].res, unsignedRes) then o in s'.stack
         else o in s'.finishing
  {
    CurrentIffConnected(s);
  }

  // ---- the order of the stack ----

  lemma StackStep(s: State, m: Move, unsignedRes: bool)
    requires Enabled(s, m) && KnownOps(s)
    ensures
      var s' := Next(s, m, unsignedRes);
      if m.WorkerTake? then s.stack == [s.stack[0]] + s'.stack && s'.workers[m.w] == Holding(s.stack[0])
      else s'.stack == s.stack || (|s'.stack| == |s.stack| + 1 && s'.stack[1..] == s.stack)
  {
    if m.Dispatch? {
      DispatchOutline(s, m.alloc, unsignedRes);
    }
  }

  predicate NotTakenFrom(s: State, m: Move, depth: int) {
    m.WorkerTake? ==> |s.stack| > depth
  }

  predicate Bottom(stack: seq<OpId>, below: seq<OpId>) {
    |stack| >= |below| && stack[|stack| - |below|..] == below
  }

  /** A step does not touch what lies at the bottom of the stack, if it does not take it. */
  lemma BelowStays(s: State, m: Move, unsignedRes: bool, below: seq<OpId>)
    requires Enabled(s, m) && KnownOps(s)
    requires Bottom(s.stack, below)
    requires m.WorkerTake? ==> |s.stack| > |below|
    ensures Bottom(Next(s, m, unsignedRes).stack, below)
  {
    StackStep(s, m, unsignedRes);
    var s' := Next(s, m, unsignedRes);
    if m.WorkerTake? {
      assert s'.stack == s.stack[1..];
    } else if s'.stack != s.stack {
      assert s'.stack == [s'.stack[0]] + s.stack;
    }
  }

  /**
   Workers take the latest operation first: as long as the one at depth a has not been taken, the stack
   below it stays as it was.
   */
  lemma {:induction false} StackIsLastInFirstOut(
    states: seq<State>, moves: seq<Move>, unsignedRes: bool, i: nat, j: nat, a: nat)
    requires Run(states, moves, unsignedRes) && i <= j < |states| && a < |states[i].stack|
    requires forall k :: i <= k < j ==> NotTakenFrom(states[k], moves[k], |states[i].stack| - a)
    ensures Bottom(states[j].stack, states[i].stack[a..])
    decreases j - i
  {
    if i < j {
      StackIsLastInFirstOut(states, moves, unsignedRes, i, j - 1, a);
      BelowStaysAt(states, moves, unsignedRes, j - 1, states[i].stack[a..]);
    }
  }

  lemma BelowStaysAt(states: seq<State>, moves: seq<Move>, unsignedRes: bool, j: nat, below: seq<OpId>)
    requires Run(states, moves, unsignedRes) && j < |moves|
    requires Bottom(states[j].stack, below) && NotTakenFrom(states[j], moves[j], |below|)
    ensures Bottom(states[j + 1].stack, below)
  {
    assert Enabled(states[j], moves[j]) && states[j + 1] == Next(states[j], moves[j], unsignedRes);
    BelowStays(states[j], moves[j], unsignedRes, below);
  }
}
