/**
 The ring queue shared by any number of threads: every atomic access of the source is one step.

 The shared words are the 32-bit indices and 64-bit counters of the source. Beside them the state keeps
 history variables that no step consults: the unbounded index values H and T, the log of items by
 position, and the bookkeeping the theorems speak about. A snapshot is the word a load returned,
 together with (history) the unbounded value it stood for.
 */
module RingMachine {
  import opened Words

  datatype Op =
    | Push(item: int)
    | PushBatch(items: seq<int>)
    | Pop
    | PopBatch(count: uint32)
    | Empty
    | Full
    | Size
  {
    predicate Producer() {
      Push? || PushBatch?
    }

    predicate Consumer() {
      Pop? || PopBatch?
    }

    /** A single push or pop starts over after a failed compare-exchange; a batch gives up. */
    predicate Retries() {
      Push? || Pop?
    }

    predicate WellFormed() {
      PushBatch? ==> |items| < WORD
    }

    /** Past the entry checks of the call. */
    predicate Entered() {
      WellFormed() && (PushBatch? ==> items != []) && (PopBatch? ==> count > 0)
    }

    function Offered(): seq<int> {
      match this
      case Push(item) => [item]
      case PushBatch(items) => items
      case _ => []
    }
  }

  datatype Snap = Snap(word: uint32, pos: nat)

  /** What a call returned. For items moved, base is (history) the first position they were moved to or from. */
  datatype Answer =
    | NoAnswer
    | Flag(b: bool)
    | Pushed(n: nat, base: nat)
    | Popped(out: seq<int>, base: nat)
    | Measured(size: uint32)

  datatype Local =
    | Idle(answer: Answer)
    | Start(op: Op)                                         // about to load the first index
    | Loaded(op: Op, first: Snap)                           // about to load the second index
    | Reading(op: Op, first: Snap)                          // pop, about to read the slot
    | Claiming(op: Op, first: Snap, n: nat, value: int)     // about to compare-exchange
    | Copying(op: Op, first: Snap, base: nat, n: nat, done: nat, out: seq<int>)
    | Counting(op: Op, base: nat, n: nat, out: seq<int>)    // about to add to push_count or pop_count
    | Failing(op: Op)                                       // about to add to push_fail_count

  datatype Claim = Claim(thread: nat, start: nat, n: nat)

  datatype State = State(
    head: uint32,
    tail: uint32,
    buffer: seq<int>,
    pushCount: uint64,
    popCount: uint64,
    pushFailCount: uint64,
    threads: seq<Local>,
    // history
    H: nat,
    T: nat,
    log: seq<int>,
    stored: set<nat>,
    writer: seq<int>,
    pushClaims: seq<Claim>,
    popClaims: seq<Claim>,
    wins: nat,
    losses: nat,
    popWins: nat,
    popLosses: nat)

  /** One thread's turn. An idle thread begins op; `spurious` makes a weak compare-exchange fail. */
  datatype Move = Move(thread: nat, op: Op, spurious: bool)

  predicate ValidMove(s: State, m: Move) {
    m.thread < |s.threads| && m.op.WellFormed()
  }

  function Initial(threads: nat): State {
    State(0, 0, seq(RING_QUEUE_SIZE, _ => 0), 0, 0, 0, seq(threads, _ => Idle(NoAnswer)),
          0, 0, [], {}, seq(RING_QUEUE_SIZE, _ => -1), [], [], 0, 0, 0, 0)
  }

  function Goto(s: State, t: nat, l: Local): (s': State)
    requires t < |s.threads|
  {
    s.(threads := s.threads[t := l])
  }

  // ---- the steps ----

  function Next(s: State, m: Move): State
    requires ValidMove(s, m)
  {
    var t := m.thread;
    match s.threads[t]
    case Idle(_) => Goto(s, t, Invoke(m.op))
    case Start(op) => Goto(s, t, Loaded(op, LoadFirst(s, op)))
    case Loaded(op, first) => Goto(s, t, Decide(op, first, LoadSecond(s, op)))
    case Reading(op, first) => Goto(s, t, Claiming(op, first, 1, Peek(s.buffer, Slot(first.word))))
    case Claiming(op, first, n, value) => CompareExchange(s, t, m.spurious)
    case Copying(op, first, base, n, done, out) => CopyOne(s, t)
    case Counting(op, base, n, out) => CountMoved(s, t)
    case Failing(op) =>
      Goto(s, t, Idle(if op.Push? then Flag(false) else Pushed(0, 0))).(pushFailCount := Wrap64(s.pushFailCount + 1))
  }

  function Invoke(op: Op): Local {
    match op
    case PushBatch(items) => if items == [] then Idle(Pushed(0, 0)) else Start(op)
    case PopBatch(count) => if count == 0 then Idle(Popped([], 0)) else Start(op)
    case _ => Start(op)
  }

  /** Producers load tail first; everyone else loads head first. */
  function LoadFirst(s: State, op: Op): Snap {
    if op.Producer() then Snap(s.tail, s.T) else Snap(s.head, s.H)
  }

  function LoadSecond(s: State, op: Op): uint32 {
    if op.Producer() then s.head else s.tail
  }

  /** The thread-local decision once both words are known. */
  function Decide(op: Op, first: Snap, second: uint32): Local {
    match op
    case Push(_) =>
      if Sub(first.word, second) >= RING_QUEUE_SIZE then Failing(op) else Claiming(op, first, 1, 0)
    case PushBatch(items) =>
      var freeSpace := Sub(RING_QUEUE_SIZE, Sub(first.word, second));
      var n := Min(|items|, freeSpace);
      if n == 0 then Failing(op) else Claiming(op, first, n, 0)
    case Pop =>
      if first.word == second then Idle(Flag(false)) else Reading(op, first)
    case PopBatch(count) =>
      var queueSize := Sub(second, first.word);
      if queueSize == 0 then Idle(Popped([], 0)) else Claiming(op, first, Min(count, queueSize), 0)
    case Empty => Idle(Flag(first.word == second))
    case Full => Idle(Flag(Sub(second, first.word) >= RING_QUEUE_SIZE))
    case Size => Idle(Measured(Sub(second, first.word)))
  }

  function CompareExchange(s: State, t: nat, spurious: bool): State
    requires t < |s.threads| && s.threads[t].Claiming?
  {
    var l := s.threads[t];
    var current := if l.op.Producer() then s.tail else s.head;
    if current == l.first.word && !spurious then
      if l.op.Producer() then ClaimTail(s, t) else ClaimHead(s, t)
    else
      var s' := Goto(s, t, AfterLoss(l.op));
      if current == l.first.word then s'
      else if l.op.Producer() then s'.(losses := s.losses + 1)
      else s'.(popLosses := s.popLosses + 1)
  }

  /** A single operation retries; a batch reports that it moved nothing. */
  function AfterLoss(op: Op): Local {
    if op.Retries() then Start(op) else Idle(if op.Producer() then Pushed(0, 0) else Popped([], 0))
  }

  function ClaimTail(s: State, t: nat): State
    requires t < |s.threads| && s.threads[t].Claiming?
  {
    var l := s.threads[t];
    Goto(s, t, Copying(l.op, l.first, s.T, l.n, 0, [])).(
      tail := Add(l.first.word, Wrap(l.n)),
      T := s.T + l.n,
      log := s.log + Prefix(l.op.Offered(), l.n),
      pushClaims := s.pushClaims + [Claim(t, s.T, l.n)],
      wins := s.wins + 1)
  }

  function ClaimHead(s: State, t: nat): State
    requires t < |s.threads| && s.threads[t].Claiming?
  {
    var l := s.threads[t];
    Goto(s, t, if l.op.Pop? then Counting(l.op, s.H, l.n, [l.value]) else Copying(l.op, l.first, s.H, l.n, 0, [])).(
      head := Add(l.first.word, Wrap(l.n)),
      H := s.H + l.n,
      popClaims := s.popClaims + [Claim(t, s.H, l.n)],
      popWins := s.popWins + 1)
  }

  /** One element of the store after a push, or of the memcpy of a batch. */
  function CopyOne(s: State, t: nat): State
    requires t < |s.threads| && s.threads[t].Copying?
  {
    var l := s.threads[t];
    if l.done >= l.n then Goto(s, t, Counting(l.op, l.base, l.n, l.out))
    else
      var slot := ChunkSlot(Slot(l.first.word), l.done);
      if l.op.Producer() then
        Goto(s, t, l.(done := l.done + 1)).(
          buffer := Poke(s.buffer, slot, Peek(l.op.Offered(), l.done)),
          stored := s.stored + {l.base + l.done},
          writer := Poke(s.writer, slot, l.base + l.done))
      else
        Goto(s, t, l.(done := l.done + 1, out := l.out + [Peek(s.buffer, slot)]))
  }

  function CountMoved(s: State, t: nat): State
    requires t < |s.threads| && s.threads[t].Counting?
  {
    var l := s.threads[t];
    var s' := Goto(s, t, Idle(if l.op.Producer() then Pushed(l.n, l.base) else Popped(l.out, l.base)));
    if l.op.Producer() then s'.(pushCount := Wrap64(s.pushCount + l.n))
    else s'.(popCount := Wrap64(s.popCount + l.n))
  }

  /** Memory accesses; that they are always in bounds is proved (RingSafety.AccessesInBounds). */
  function Peek(xs: seq<int>, i: int): int {
    if 0 <= i < |xs| then xs[i] else 0
  }

  function Poke(xs: seq<int>, i: int, x: int): (ys: seq<int>)
    ensures |ys| == |xs|
  {
    if 0 <= i < |xs| then xs[i := x] else xs
  }

  function Prefix(xs: seq<int>, n: nat): seq<int> {
    if n <= |xs| then xs[..n] else xs
  }

  // ---- runs ----

  /** A run: each state follows from the one before by the corresponding move. */
  ghost predicate Run(states: seq<State>, moves: seq<Move>) {
    && |states| == |moves| + 1
    && (exists threads: nat :: states[0] == Initial(threads))
    && (forall i :: 0 <= i < |moves| ==> ValidMove(states[i], moves[i]) && states[i + 1] == Next(states[i], moves[i]))
  }

  /**
   No ABA: when a compare-exchange looks at an index, that index has advanced by less than 2^32 since
   the thread loaded it.
   */
  predicate NoAba(s: State, m: Move)
    requires ValidMove(s, m)
  {
    var l := s.threads[m.thread];
    l.Claiming? ==> (if l.op.Producer() then s.T else s.H) < l.first.pos + WORD
  }

  ghost predicate FreshRun(states: seq<State>, moves: seq<Move>) {
    && Run(states, moves)
    && (forall i :: 0 <= i < |moves| ==> NoAba(states[i], moves[i]))
  }

  /** The queue the shared state stands for: items claimed by producers and not yet claimed by consumers. */
  function Queue(s: State): seq<int>
    requires s.H <= s.T == |s.log|
  {
    s.log[s.H..]
  }
}
