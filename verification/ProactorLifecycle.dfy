/** Every operation of the proactor is always in exactly one place, and is freed at most once. */
module ProactorLifecycle {
  import opened Sums
  import opened Proactor

  ghost predicate Lifecycle(s: State) {
    && KnownOps(s)
    && |s.finishing| <= 1
    && (forall o: OpId :: Places(s, o) == if o < |s.ops| then 1 else 0)
  }

  lemma InitialLifecycle(workers: nat, maxConnections: nat)
    ensures Lifecycle(Initial(workers, maxConnections))
  {
    forall o: OpId
      ensures Places(Initial(workers, maxConnections), o) == 0
    {
      SumZero((w: Worker) => if w == Holding(o) then 1 else 0, Initial(workers, maxConnections).workers);
    }
  }

  lemma CountPush(x: OpId, ids: seq<OpId>, o: OpId)
    ensures Count([x] + ids, o) == (if x == o then 1 else 0) + Count(ids, o)
  {
    assert ([x] + ids)[1..] == ids;
  }

  lemma CountAppend(ids: seq<OpId>, more: seq<OpId>, o: OpId)
    ensures Count(ids + more, o) == Count(ids, o) + Count(more, o)
  {
    SumConcat((x: OpId) => if x == o then 1 else 0, ids, more);
  }

  lemma CountSingle(x: OpId, o: OpId)
    ensures Count([x], o) == if x == o then 1 else 0
  {
    SumOne((y: OpId) => if y == o then 1 else 0, x);
  }

  lemma CountDoneAppend(cs: seq<Completion>, more: seq<Completion>, o: OpId)
    ensures CountDone(cs + more, o) == CountDone(cs, o) + CountDone(more, o)
  {
    SumConcat((c: Completion) => if c.op == o then 1 else 0, cs, more);
  }

  lemma CountDoneSingle(c: Completion, o: OpId)
    ensures CountDone([c], o) == if c.op == o then 1 else 0
  {
    SumOne((x: Completion) => if x.op == o then 1 else 0, c);
  }

  lemma CountHeldUpdate(ws: seq<Worker>, w: nat, x: Worker, o: OpId)
    requires w < |ws|
    ensures CountHeld(ws[w := x], o) + (if ws[w] == Holding(o) then 1 else 0) ==
            CountHeld(ws, o) + (if x == Holding(o) then 1 else 0)
  {
    SumUpdate((y: Worker) => if y == Holding(o) then 1 else 0, ws, w, x);
  }

  /** Presence in a container shows in its count. */
  lemma CountPresent(s: State, o: OpId)
    ensures o in s.stack ==> Count(s.stack, o) >= 1
    ensures o in s.freed ==> Count(s.freed, o) >= 1
    ensures o in s.finishing ==> Count(s.finishing, o) >= 1
    ensures Holding(o) in s.workers ==> CountHeld(s.workers, o) >= 1
    ensures forall c :: c in s.completed && c.op == o ==> CountDone(s.completed, o) >= 1
    ensures forall c :: c in s.batch && c.op == o ==> CountDone(s.batch, o) >= 1
  {
    if o in s.stack {
      var i :| 0 <= i < |s.stack| && s.stack[i] == o;
      SumCovers((x: OpId) => if x == o then 1 else 0, s.stack, i);
    }
    if o in s.freed {
      var i :| 0 <= i < |s.freed| && s.freed[i] == o;
      SumCovers((x: OpId) => if x == o then 1 else 0, s.freed, i);
    }
    if o in s.finishing {
      var i :| 0 <= i < |s.finishing| && s.finishing[i] == o;
      SumCovers((x: OpId) => if x == o then 1 else 0, s.finishing, i);
    }
    if Holding(o) in s.workers {
      var i :| 0 <= i < |s.workers| && s.workers[i] == Holding(o);
      SumCovers((w: Worker) => if w == Holding(o) then 1 else 0, s.workers, i);
    }
    forall c | c in s.completed && c.op == o
      ensures CountDone(s.completed, o) >= 1
    {
      var i :| 0 <= i < |s.completed| && s.completed[i] == c;
      SumCovers((x: Completion) => if x.op == o then 1 else 0, s.completed, i);
    }
    forall c | c in s.batch && c.op == o
      ensures CountDone(s.batch, o) >= 1
    {
      var i :| 0 <= i < |s.batch| && s.batch[i] == c;
      SumCovers((x: Completion) => if x.op == o then 1 else 0, s.batch, i);
    }
  }

  // ---- one step ----

  lemma TakePlaces(s: State, w: nat, unsignedRes: bool, o: OpId)
    requires Enabled(s, WorkerTake(w)) && Lifecycle(s)
    ensures Places(Next(s, WorkerTake(w), unsignedRes), o) == Places(s, o)
  {
    assert s.stack == [s.stack[0]] + s.stack[1..];
    CountPush(s.stack[0], s.stack[1..], o);
    CountHeldUpdate(s.workers, w, Holding(s.stack[0]), o);
  }

  lemma SubmissionPlaces(s: State, w: nat, outcome: Submit, unsignedRes: bool, o: OpId)
    requires Enabled(s, WorkerSubmit(w, outcome)) && Lifecycle(s)
    ensures Places(Next(s, WorkerSubmit(w, outcome), unsignedRes), o) == Places(s, o)
  {
    var x := s.workers[w].op;
    CountHeldUpdate(s.workers, w, Waiting, o);
    CountPush(x, s.stack, o);
    CountSingle(x, o);
    CountAppend(s.freed, [x], o);
    if x in s.kernel {
      HeldOnlyOnce(s, w);
    }
  }

  lemma HeldOnlyOnce(s: State, w: nat)
    requires Lifecycle(s) && w < |s.workers| && s.workers[w].Holding?
    ensures s.workers[w].op !in s.kernel
  {
    CountPresent(s, s.workers[w].op);
    assert s.workers[w] == Holding(s.workers[w].op);
    assert Places(s, s.workers[w].op) <= 1;
  }

  lemma CompletionPlaces(s: State, c: Completion, s': State, o: OpId)
    requires c.op in s.kernel
    requires s'.kernel == s.kernel - {c.op} && s'.completed == s.completed + [c]
    requires (s'.stack, s'.workers, s'.batch, s'.finishing, s'.freed) == (s.stack, s.workers, s.batch, s.finishing, s.freed)
    ensures Places(s', o) == Places(s, o)
  {
    CountDoneAppend(s.completed, [c], o);
    CountDoneSingle(c, o);
  }

  lemma KernelPlaces(s: State, m: Move, unsignedRes: bool, o: OpId)
    requires Enabled(s, m) && Lifecycle(s) && (m.KernelReads? || m.KernelWrites? || m.KernelFails?)
    ensures Places(Next(s, m, unsignedRes), o) == Places(s, o)
  {
    var s' := Next(s, m, unsignedRes);
    match m
    case KernelReads(x, data) => CompletionPlaces(s, Completion(x, |data|), s', o);
    case KernelWrites(x, n) => CompletionPlaces(s, Completion(x, n), s', o);
    case KernelFails(x, error) => CompletionPlaces(s, Completion(x, 0 - (error as int)), s', o);
  }

  lemma FetchPlaces(s: State, n: nat, unsignedRes: bool, o: OpId)
    requires Enabled(s, Fetch(n)) && Lifecycle(s)
    ensures Places(Next(s, Fetch(n), unsignedRes), o) == Places(s, o)
  {
    assert s.completed == s.completed[..n] + s.completed[n..];
    CountDoneAppend(s.completed[..n], s.completed[n..], o);
    assert CountDone([], o) == 0;
  }

  lemma FreePlaces(s: State, unsignedRes: bool, o: OpId)
    requires Enabled(s, Free) && Lifecycle(s)
    ensures Places(Next(s, Free, unsignedRes), o) == Places(s, o)
  {
    CountAppend(s.freed, s.finishing, o);
    assert Count([], o) == 0;
  }

  /** An allocation adds one operation, in one place. */
  lemma SubmitPlaces(s: State, op: Op, alloc: bool, o: OpId)
    ensures
      var s' := SubmitNew(s, op, alloc);
      Places(s', o) == Places(s, o) + (if |s.ops| <= o < |s'.ops| then 1 else 0)
  {
    CountPush(|s.ops|, s.stack, o);
  }

  lemma TakeFromBatch(s: State, o: OpId)
    requires s.batch != []
    ensures CountDone(s.batch, o) == (if s.batch[0].op == o then 1 else 0) + CountDone(s.batch[1..], o)
  {
  }

  lemma DispatchPlaces(s: State, alloc: bool, unsignedRes: bool, o: OpId)
    requires Enabled(s, Dispatch(alloc)) && Lifecycle(s)
    ensures
      var s' := DispatchOne(s, alloc, unsignedRes);
      |s.ops| <= |s'.ops| && Places(s', o) == Places(s, o) + (if |s.ops| <= o < |s'.ops| then 1 else 0)
  {
    var x, res := s.batch[0].op, s.batch[0].res;
    var op := s.ops[x];
    TakeFromBatch(s, o);
    CountSingle(x, o);
    CountAppend(s.freed, [x], o);
    CountPush(x, s.stack, o);
    assert Count([], o) == 0;
    var s2 := s.(batch := s.batch[1..], finishing := [x]);
    assert Places(s2, o) == Places(s, o);
    if Current(s, op) && !Resubmits(res, unsignedRes) && res > 0 {
      if op.kind.Read? {
        ReadPlaces(s2, op.gen, res, alloc, o);
      } else {
        SubmitPlaces(s2, Op(Read, s2.ctxs[op.gen].fd, op.gen, BUFFER_SIZE - 1), alloc, o);
      }
    }
  }

  lemma ReadPlaces(s: State, g: Gen, bytes: nat, alloc: bool, o: OpId)
    requires g < |s.ctxs|
    ensures
      var s' := HandleRead(s, g, bytes, alloc);
      |s.ops| <= |s'.ops| && Places(s', o) == Places(s, o) + (if |s.ops| <= o < |s'.ops| then 1 else 0)
  {
    CountPush(|s.ops|, s.stack, o);
  }

  lemma ConnectPlaces(s: State, fd: Fd, handlerAlloc: bool, opAlloc: bool, o: OpId)
    ensures
      var s' := AddConnection(s, fd, handlerAlloc, opAlloc);
      |s.ops| <= |s'.ops| && Places(s', o) == Places(s, o) + (if |s.ops| <= o < |s'.ops| then 1 else 0)
  {
    CountPush(|s.ops|, s.stack, o);
  }

  lemma NextPlaces(s: State, m: Move, unsignedRes: bool, o: OpId)
    requires Enabled(s, m) && Lifecycle(s)
    ensures
      var s' := Next(s, m, unsignedRes);
      |s.ops| <= |s'.ops| && Places(s', o) == Places(s, o) + (if |s.ops| <= o < |s'.ops| then 1 else 0)
  {
    match m
    case Fetch(n) => FetchPlaces(s, n, unsignedRes, o);
    case Dispatch(alloc) => DispatchPlaces(s, alloc, unsignedRes, o);
    case Free => FreePlaces(s, unsignedRes, o);
    case Connect(fd, handlerAlloc, opAlloc) => ConnectPlaces(s, fd, handlerAlloc, opAlloc, o);
    case HangUp(_) =>
    case WorkerTake(w) => TakePlaces(s, w, unsignedRes, o);
    case WorkerSubmit(w, outcome) => SubmissionPlaces(s, w, outcome, unsignedRes, o);
    case _ => KernelPlaces(s, m, unsignedRes, o);
  }

  lemma CompletedAreKnown(s: State, i: nat)
    requires Lifecycle(s) && i < |s.completed|
    ensures s.completed[i].op < |s.ops|
  {
    assert s.completed[i] in s.completed;
    CountPresent(s, s.completed[i].op);
    assert Places(s, s.completed[i].op) >= 1;
  }

  lemma StackedAreKnown(s: State)
    requires Lifecycle(s) && s.stack != []
    ensures s.stack[0] < |s.ops|
  {
    assert s.stack[0] in s.stack;
    CountPresent(s, s.stack[0]);
    assert Places(s, s.stack[0]) >= 1;
  }

  lemma DispatchKnownOps(s: State, alloc: bool, unsignedRes: bool)
    requires Enabled(s, Dispatch(alloc)) && Lifecycle(s)
    ensures KnownOps(DispatchOne(s, alloc, unsignedRes)) && |DispatchOne(s, alloc, unsignedRes).finishing| <= 1
  {
  }

  lemma ConnectKnownOps(s: State, fd: Fd, handlerAlloc: bool, opAlloc: bool)
    requires Lifecycle(s)
    ensures
      KnownOps(AddConnection(s, fd, handlerAlloc, opAlloc)) && |AddConnection(s, fd, handlerAlloc, opAlloc).finishing| <= 1
  {
  }

  /** Workers and dispatcher only ever take up operations that exist. */
  lemma NextKnownOps(s: State, m: Move, unsignedRes: bool)
    requires Enabled(s, m) && Lifecycle(s)
    ensures KnownOps(Next(s, m, unsignedRes)) && |Next(s, m, unsignedRes).finishing| <= 1
  {
    match m
    case Fetch(n) =>
      forall i | 0 <= i < n
        ensures s.completed[i].op < |s.ops|
      {
        CompletedAreKnown(s, i);
      }
    case WorkerTake(_) => StackedAreKnown(s);
    case Dispatch(alloc) => DispatchKnownOps(s, alloc, unsignedRes);
    case Connect(fd, handlerAlloc, opAlloc) => ConnectKnownOps(s, fd, handlerAlloc, opAlloc);
    case _ =>
  }

  lemma NextLifecycle(s: State, m: Move, unsignedRes: bool)
    requires Enabled(s, m) && Lifecycle(s)
    ensures Lifecycle(Next(s, m, unsignedRes))
  {
    var s' := Next(s, m, unsignedRes);
    NextKnownOps(s, m, unsignedRes);
    forall o: OpId
      ensures Places(s', o) == if o < |s'.ops| then 1 else 0
    {
      NextPlaces(s, m, unsignedRes, o);
      assert Places(s, o) == if o < |s.ops| then 1 else 0;
    }
  }

  // ---- runs ----

  ghost predicate Run(states: seq<State>, moves: seq<Move>, unsignedRes: bool) {
    && |states| == |moves| + 1
    && (exists workers: nat, maxConnections: nat :: states[0] == Initial(workers, maxConnections))
    && (forall i :: 0 <= i < |moves| ==>
          Enabled(states[i], moves[i]) && KnownOps(states[i]) && states[i + 1] == Next(states[i], moves[i], unsignedRes))
  }

  /**
   In every run, however many workers, whatever the kernel's order and its EAGAIN answers, each allocated
   operation is in exactly one of the stack, a worker's hands, the kernel, the completions, the
   dispatcher's batch or hands, or freed.
   */
  lemma {:induction false} EveryOperationIsInOnePlace(states: seq<State>, moves: seq<Move>, unsignedRes: bool, i: nat)
    requires Run(states, moves, unsignedRes) && i < |states|
    ensures Lifecycle(states[i])
    decreases i
  {
    if i == 0 {
      var workers: nat, maxConnections: nat :| states[0] == Initial(workers, maxConnections);
      InitialLifecycle(workers, maxConnections);
    } else {
      EveryOperationIsInOnePlace(states, moves, unsignedRes, i - 1);
      NextLifecycle(states[i - 1], moves[i - 1], unsignedRes);
      assert states[i] == Next(states[i - 1], moves[i - 1], unsignedRes);
    }
  }

  lemma FreedOnlyGrows(s: State, m: Move, unsignedRes: bool)
    requires Enabled(s, m) && KnownOps(s)
    ensures s.freed <= Next(s, m, unsignedRes).freed
  {
  }

  /** Once freed, an operation is freed for good: it is never freed again and never comes back to any queue. */
  lemma FreedOperationsStayFreed(
    states: seq<State>, moves: seq<Move>, unsignedRes: bool, i: nat, j: nat, o: OpId)
    requires Run(states, moves, unsignedRes) && i <= j < |states| && o in states[i].freed
    ensures o in states[j].freed && Count(states[j].freed, o) == 1
    ensures o !in states[j].stack && Holding(o) !in states[j].workers && o !in states[j].kernel && o !in states[j].finishing
    ensures forall c :: c in states[j].completed || c in states[j].batch ==> c.op != o
  {
    FreedStays(states, moves, unsignedRes, i, j, o);
    EveryOperationIsInOnePlace(states, moves, unsignedRes, j);
    FreedIsNowhereElse(states[j], o);
  }

  lemma {:induction false} FreedStays(states: seq<State>, moves: seq<Move>, unsignedRes: bool, i: nat, j: nat, o: OpId)
    requires Run(states, moves, unsignedRes) && i <= j < |states| && o in states[i].freed
    ensures o in states[j].freed
    decreases j - i
  {
    if i < j {
      FreedStays(states, moves, unsignedRes, i, j - 1, o);
      FreedOnlyGrowsAt(states, moves, unsignedRes, j - 1);
    }
  }

  lemma FreedOnlyGrowsAt(states: seq<State>, moves: seq<Move>, unsignedRes: bool, j: nat)
    requires Run(states, moves, unsignedRes) && j < |moves|
    ensures states[j].freed <= states[j + 1].freed
  {
    assert Enabled(states[j], moves[j]) && states[j + 1] == Next(states[j], moves[j], unsignedRes);
    FreedOnlyGrows(states[j], moves[j], unsignedRes);
  }

  lemma FreedIsNowhereElse(s: State, o: OpId)
    requires Lifecycle(s) && o in s.freed
    ensures Count(s.freed, o) == 1
    ensures o !in s.stack && Holding(o) !in s.workers && o !in s.kernel && o !in s.finishing
    ensures forall c :: c in s.completed || c in s.batch ==> c.op != o
  {
    CountPresent(s, o);
    assert Places(s, o) <= 1;
  }
}
