/**
 Where the items that consumers receive come from, in every interleaving, and exactly when a consumer
 receives the item of its own position.
 */
module RingOrigins {
  import opened Words
  import opened RingMachine
  import opened RingSafety
  import opened RingDelivery

  /** Each slot holds the item of the position last stored there, or its initial zero. */
  ghost predicate ProvenanceInv(s: State) {
    && Inv(s)
    && (forall j :: 0 <= j < RING_QUEUE_SIZE ==> SlotProvenance(s.buffer[j], s.writer[j], j, s.log, s.stored))
  }

  predicate SlotProvenance(content: int, writer: int, slot: nat, log: seq<int>, stored: set<nat>) {
    if writer == -1 then content == 0
    else 0 <= writer < |log| && writer in stored && writer % RING_QUEUE_SIZE == slot && content == log[writer]
  }

  lemma NextProvenance(s: State, m: Move)
    requires ValidMove(s, m) && ProvenanceInv(s) && NoAba(s, m)
    ensures ProvenanceInv(Next(s, m))
  {
    NextInv(s, m);
    var l := s.threads[m.thread];
    if l.Copying? && l.op.Producer() && l.done < l.n {
      AccessesInBounds(s, m.thread);
      assert l.op.Offered()[..l.n][l.done] == s.log[l.base..l.base + l.n][l.done];
    }
  }

  /** In every run, handoff or not, a slot's content is accounted for by one claimed position. */
  lemma {:induction false} SlotsAreAccountedFor(states: seq<State>, moves: seq<Move>, i: nat)
    requires FreshRun(states, moves) && i < |states|
    ensures ProvenanceInv(states[i])
    decreases i
  {
    if i == 0 {
      var threads: nat :| states[0] == Initial(threads);
      InitialInv(threads);
    } else {
      SlotsAreAccountedFor(states, moves, i - 1);
      assert ValidMove(states[i - 1], moves[i - 1]) && NoAba(states[i - 1], moves[i - 1]);
      NextProvenance(states[i - 1], moves[i - 1]);
      assert states[i] == Next(states[i - 1], moves[i - 1]);
    }
  }

  /** The item pushed at a position; for the mark -1 of a slot never stored to, the initial zero. */
  function ItemOf(p: int, log: seq<int>): int {
    if 0 <= p < |log| then log[p] else 0
  }

  /** No other position of the same slot carries the same item, and it is not the initial zero. */
  predicate Distinguishable(p: nat, log: seq<int>)
    requires p < |log|
  {
    && log[p] != 0
    && forall q :: 0 <= q < |log| && q != p && q % RING_QUEUE_SIZE == p % RING_QUEUE_SIZE ==> log[q] != log[p]
  }

  lemma SlotHolds(s: State, p: nat)
    requires ProvenanceInv(s) && p < |s.log|
    ensures
      var slot := p % RING_QUEUE_SIZE;
      && s.buffer[slot] == ItemOf(s.writer[slot], s.log)
      && (Distinguishable(p, s.log) ==> (s.buffer[slot] == s.log[p] <==> s.writer[slot] == p))
  {
    var slot := p % RING_QUEUE_SIZE;
    assert SlotProvenance(s.buffer[slot], s.writer[slot], slot, s.log, s.stored);
  }

  /**
   A pop whose compare-exchange can still succeed reads the item last stored in the slot, which is its own
   (told apart from the others of that slot) exactly when the last store was that of its position.
   */
  lemma PopReadsItsOwnItemIff(s: State, m: Move)
    requires ValidMove(s, m) && ProvenanceInv(s) && s.threads[m.thread].Reading?
    requires s.threads[m.thread].first.pos == s.H
    ensures
      var value, writer := Next(s, m).threads[m.thread].value, s.writer[s.H % RING_QUEUE_SIZE];
      && value == ItemOf(writer, s.log)
      && (Distinguishable(s.H, s.log) ==> (value == s.log[s.H] <==> writer == s.H))
  {
    SlotOfPosition(s.H);
    SlotHolds(s, s.H);
  }

  /** As long as the handoff was kept so far, that means: exactly when the item has been stored. */
  lemma PopReadsItsOwnItemIffStored(s: State, m: Move)
    requires ValidMove(s, m) && ProvenanceInv(s) && DeliveryInv(s) && s.threads[m.thread].Reading?
    requires s.threads[m.thread].first.pos == s.H && Distinguishable(s.H, s.log)
    ensures
      Next(s, m).threads[m.thread].value == s.log[s.H] <==> s.H in s.stored
  {
    PopReadsItsOwnItemIff(s, m);
    SlotOfPosition(s.H);
    var slot := s.H % RING_QUEUE_SIZE;
    assert SlotProvenance(s.buffer[slot], s.writer[slot], slot, s.log, s.stored);
  }

  /** Each element a batch removal copies is the item last stored in its slot; likewise. */
  lemma BatchCopiesItsOwnItemIff(s: State, t: nat)
    requires t < |s.threads| && ProvenanceInv(s)
    requires var l := s.threads[t]; l.Copying? && l.op.PopBatch? && l.done < l.n
    ensures
      var l, l' := s.threads[t], CopyOne(s, t).threads[t];
      var p := l.base + l.done;
      && l'.Copying? && |l'.out| == l.done + 1 && p < |s.log|
      && l'.out[l.done] == ItemOf(s.writer[p % RING_QUEUE_SIZE], s.log)
      && (Distinguishable(p, s.log) ==> (l'.out[l.done] == s.log[p] <==> s.writer[p % RING_QUEUE_SIZE] == p))
  {
    AccessesInBounds(s, t);
    SlotHolds(s, s.threads[t].base + s.threads[t].done);
  }

  // ---- over whole runs ----

  /** The items a consumer has read so far, and the position of the first of them. */
  function Taken(l: Local): seq<int> {
    match l
    case Claiming(op, _, _, value) => if op.Pop? then [value] else []
    case Copying(op, _, _, _, _, out) => if op.PopBatch? then out else []
    case Counting(op, _, _, out) => if op.Consumer() then out else []
    case Idle(Popped(out, _)) => out
    case _ => []
  }

  function TakenFrom(l: Local): nat {
    match l
    case Claiming(_, first, _, _) => first.pos
    case Copying(_, _, base, _, _, _) => base
    case Counting(_, base, _, _) => base
    case Idle(Popped(_, base)) => base
    case _ => 0
  }

  /** This move is the read of position p by thread t, of a pop or of one element of a batch removal. */
  predicate ReadsPosition(s: State, m: Move, t: nat, p: nat) {
    && m.thread == t < |s.threads|
    && match s.threads[t]
       case Reading(_, first) => first.pos == p
       case Copying(op, _, base, n, done, _) => op.PopBatch? && done < n && base + done == p
       case _ => false
  }

  /** Thread t last read position p by move i, and what it read is x. */
  ghost predicate LastRead(states: seq<State>, moves: seq<Move>, i: nat, j: nat, t: nat, p: nat, x: int)
    requires |states| == |moves| + 1 && j < |states|
  {
    && i < j
    && ReadsPosition(states[i], moves[i], t, p)
    && (forall h :: i < h < j ==> !ReadsPosition(states[h], moves[h], t, p))
    && p < |states[i].log| && states[i].log <= states[j].log
    && |states[i].writer| == RING_QUEUE_SIZE
    && x == ItemOf(states[i].writer[p % RING_QUEUE_SIZE], states[j].log)
  }

  /** A compare-exchange, won or lost, brings no new item. */
  lemma TakenByClaim(s: State, m: Move)
    requires ValidMove(s, m) && Inv(s) && NoAba(s, m) && s.threads[m.thread].Claiming?
    ensures
      var l, l' := s.threads[m.thread], Next(s, m).threads[m.thread];
      Taken(l') == [] || (Taken(l') == Taken(l) && TakenFrom(l') == TakenFrom(l))
  {
    SuccessMeansUnmoved(s, m);
  }

  lemma TakenByCopy(s: State, t: nat)
    requires t < |s.threads| && s.threads[t].Copying? && Inv(s)
    ensures
      var l, l' := s.threads[t], CopyOne(s, t).threads[t];
      Taken(l') == [] ||
        (TakenFrom(l') == TakenFrom(l) && Taken(l) <= Taken(l') && |Taken(l)| == (if l.op.PopBatch? then l.done else 0)
         && |Taken(l')| == |Taken(l)| + (if l.op.PopBatch? && l.done < l.n then 1 else 0))
  {
  }

  /** What one move adds to the items in its thread's hands: nothing, or what it reads. */
  lemma TakenByMove(s: State, m: Move, k: nat)
    requires ValidMove(s, m) && ProvenanceInv(s) && NoAba(s, m)
    requires var l' := Next(s, m).threads[m.thread]; k < |Taken(l')|
    ensures
      var l, l' := s.threads[m.thread], Next(s, m).threads[m.thread];
      var p := TakenFrom(l') + k;
      if ReadsPosition(s, m, m.thread, p) then
        p < |s.log| && Taken(l')[k] == ItemOf(s.writer[p % RING_QUEUE_SIZE], s.log)
      else
        k < |Taken(l)| && TakenFrom(l') == TakenFrom(l) && Taken(l')[k] == Taken(l)[k]
  {
    var l := s.threads[m.thread];
    if l.Reading? {
      SlotOfPosition(l.first.pos);
      SlotHolds(s, l.first.pos);
    } else if l.Claiming? {
      TakenByClaim(s, m);
    } else if l.Copying? {
      TakenByCopy(s, m.thread);
      if l.op.PopBatch? && l.done < l.n {
        BatchCopiesItsOwnItemIff(s, m.thread);
      }
    }
  }

  lemma WriterIsKnown(s: State, p: nat)
    requires ProvenanceInv(s) && p < |s.log|
    ensures -1 <= s.writer[p % RING_QUEUE_SIZE] < |s.log|
  {
    var slot := p % RING_QUEUE_SIZE;
    assert SlotProvenance(s.buffer[slot], s.writer[slot], slot, s.log, s.stored);
  }

  lemma LogOnlyGrows(s: State, m: Move)
    requires ValidMove(s, m)
    ensures s.log <= Next(s, m).log
    ensures |Next(s, m).threads| == |s.threads|
    ensures forall t :: 0 <= t < |s.threads| && t != m.thread ==> Next(s, m).threads[t] == s.threads[t]
  {
  }

  ghost predicate WasRead(states: seq<State>, moves: seq<Move>, j: nat, t: nat, p: nat, x: int)
    requires |states| == |moves| + 1 && j < |states|
  {
    exists i: nat :: LastRead(states, moves, i, j, t, p, x)
  }

  /** A later move that does not read the position again leaves the last read of it the last. */
  lemma StillLastRead(states: seq<State>, moves: seq<Move>, j: nat, t: nat, p: nat, x: int)
    requires FreshRun(states, moves) && j < |moves|
    requires WasRead(states, moves, j, t, p, x) && !ReadsPosition(states[j], moves[j], t, p)
    ensures WasRead(states, moves, j + 1, t, p, x)
  {
    var i: nat :| LastRead(states, moves, i, j, t, p, x);
    SlotsAreAccountedFor(states, moves, i);
    WriterIsKnown(states[i], p);
    assert ValidMove(states[j], moves[j]) && states[j + 1] == Next(states[j], moves[j]);
    LogOnlyGrows(states[j], moves[j]);
    assert LastRead(states, moves, i, j + 1, t, p, x);
  }

  lemma JustRead(states: seq<State>, moves: seq<Move>, j: nat, t: nat, p: nat)
    requires FreshRun(states, moves) && j < |moves| && ProvenanceInv(states[j])
    requires ReadsPosition(states[j], moves[j], t, p) && p < |states[j].log|
    ensures WasRead(states, moves, j + 1, t, p, ItemOf(states[j].writer[p % RING_QUEUE_SIZE], states[j].log))
  {
    WriterIsKnown(states[j], p);
    assert ValidMove(states[j], moves[j]) && states[j + 1] == Next(states[j], moves[j]);
    LogOnlyGrows(states[j], moves[j]);
    assert LastRead(states, moves, j, j + 1, t, p, ItemOf(states[j].writer[p % RING_QUEUE_SIZE], states[j].log));
  }

  predicate HasTaken(l: Local, k: nat) {
    k < |Taken(l)|
  }

  /** Each item a pop or batch removal has in its hands or has returned was read by it from its slot. */
  ghost predicate AllRead(states: seq<State>, moves: seq<Move>, j: nat)
    requires |states| == |moves| + 1 && j < |states|
  {
    forall t: nat, k: nat :: t < |states[j].threads| && HasTaken(states[j].threads[t], k) ==>
      ItemRead(states, moves, j, t, k)
  }

  ghost predicate ItemRead(states: seq<State>, moves: seq<Move>, j: nat, t: nat, k: nat)
    requires |states| == |moves| + 1 && j < |states|
    requires t < |states[j].threads| && k < |Taken(states[j].threads[t])|
  {
    var l := states[j].threads[t];
    WasRead(states, moves, j, t, TakenFrom(l) + k, Taken(l)[k])
  }

  /**
   In every run, handoff or not: each item a pop or batch removal has in its hands or has returned was
   read by it from the slot of the item's position, and is the item last stored there at that read.
   */
  lemma {:induction false} EveryItemWasLastInItsSlot(states: seq<State>, moves: seq<Move>, j: nat)
    requires FreshRun(states, moves) && j < |states|
    ensures AllRead(states, moves, j)
    decreases j
  {
    if j == 0 {
      NothingTakenAtFirst(states, moves);
    } else {
      EveryItemWasLastInItsSlot(states, moves, j - 1);
      NextAllRead(states, moves, j - 1);
    }
  }

  lemma NextAllRead(states: seq<State>, moves: seq<Move>, j: nat)
    requires FreshRun(states, moves) && j < |moves| && AllRead(states, moves, j)
    ensures AllRead(states, moves, j + 1)
  {
    ThreadsStay(states, moves, j);
    var now := states[j + 1].threads;
    forall t: nat, k: nat | t < |now| && HasTaken(now[t], k)
      ensures ItemRead(states, moves, j + 1, t, k)
    {
      assert HasTaken(states[j].threads[t], k) ==> ItemRead(states, moves, j, t, k);
      TakenWasRead(states, moves, j, t, k);
    }
  }

  lemma NothingTakenAtFirst(states: seq<State>, moves: seq<Move>)
    requires Run(states, moves)
    ensures forall t: nat :: t < |states[0].threads| ==> Taken(states[0].threads[t]) == []
  {
  }

  lemma ThreadsStay(states: seq<State>, moves: seq<Move>, j: nat)
    requires Run(states, moves) && j < |moves|
    ensures |states[j].threads| == |states[j + 1].threads|
  {
    assert ValidMove(states[j], moves[j]) && states[j + 1] == Next(states[j], moves[j]);
    LogOnlyGrows(states[j], moves[j]);
  }

  lemma TakenWasRead(states: seq<State>, moves: seq<Move>, j: nat, t: nat, k: nat)
    requires FreshRun(states, moves) && j < |moves| && t < |states[j].threads| == |states[j + 1].threads|
    requires
      var l := states[j].threads[t];
      k < |Taken(l)| ==> WasRead(states, moves, j, t, TakenFrom(l) + k, Taken(l)[k])
    requires k < |Taken(states[j + 1].threads[t])|
    ensures
      var l' := states[j + 1].threads[t];
      WasRead(states, moves, j + 1, t, TakenFrom(l') + k, Taken(l')[k])
  {
    var l, l' := states[j].threads[t], states[j + 1].threads[t];
    if StillTaken(l, l', k) && !ReadsPosition(states[j], moves[j], t, TakenFrom(l) + k) {
      StillLastRead(states, moves, j, t, TakenFrom(l) + k, Taken(l)[k]);
    } else {
      NewlyTaken(states, moves, j, t, k);
    }
  }

  /** The k-th item taken was there before, for the same position. */
  predicate StillTaken(l: Local, l': Local, k: nat)
    requires k < |Taken(l')|
  {
    k < |Taken(l)| && TakenFrom(l') == TakenFrom(l) && Taken(l')[k] == Taken(l)[k]
  }

  lemma NewlyTaken(states: seq<State>, moves: seq<Move>, j: nat, t: nat, k: nat)
    requires FreshRun(states, moves) && j < |moves| && t < |states[j].threads| == |states[j + 1].threads|
    requires k < |Taken(states[j + 1].threads[t])|
    requires
      var l, l' := states[j].threads[t], states[j + 1].threads[t];
      !StillTaken(l, l', k) || ReadsPosition(states[j], moves[j], t, TakenFrom(l) + k)
    ensures
      var l' := states[j + 1].threads[t];
      WasRead(states, moves, j + 1, t, TakenFrom(l') + k, Taken(l')[k])
  {
    assert ValidMove(states[j], moves[j]) && NoAba(states[j], moves[j]) && states[j + 1] == Next(states[j], moves[j]);
    SlotsAreAccountedFor(states, moves, j);
    ReadNow(states[j], moves[j], t, k);
    JustRead(states, moves, j, t, TakenFrom(states[j + 1].threads[t]) + k);
  }

  lemma ReadNow(s: State, m: Move, t: nat, k: nat)
    requires ValidMove(s, m) && ProvenanceInv(s) && NoAba(s, m)
    requires t < |s.threads| == |Next(s, m).threads| && k < |Taken(Next(s, m).threads[t])|
    requires
      var l, l' := s.threads[t], Next(s, m).threads[t];
      !StillTaken(l, l', k) || ReadsPosition(s, m, t, TakenFrom(l) + k)
    ensures
      var l' := Next(s, m).threads[t];
      var p := TakenFrom(l') + k;
      ReadsPosition(s, m, t, p) && p < |s.log| && Taken(l')[k] == ItemOf(s.writer[p % RING_QUEUE_SIZE], s.log)
  {
    LogOnlyGrows(s, m);
    assert m.thread == t;
    TakenByMove(s, m, k);
  }

  /**
   ... so a finished pop or batch removal returned, in place k, the item pushed at its k-th position
   exactly if the last store to the slot before it read it was the store of that position.
   */
  lemma ConsumersReceiveTheirOwnItemIff(states: seq<State>, moves: seq<Move>, j: nat, t: nat, k: nat)
    requires FreshRun(states, moves) && j < |states| && t < |states[j].threads|
    requires states[j].threads[t].Idle? && states[j].threads[t].answer.Popped?
    requires k < |states[j].threads[t].answer.out|
    ensures
      var a, log := states[j].threads[t].answer, states[j].log;
      var p := a.base + k;
      && p < |log|
      && exists i: nat ::
           && LastRead(states, moves, i, j, t, p, a.out[k])
           && (Distinguishable(p, log) ==> (a.out[k] == log[p] <==> states[i].writer[p % RING_QUEUE_SIZE] == p))
  {
    var a, log := states[j].threads[t].answer, states[j].log;
    var p := a.base + k;
    assert Taken(states[j].threads[t]) == a.out && TakenFrom(states[j].threads[t]) == a.base;
    EveryItemWasLastInItsSlot(states, moves, j);
    assert HasTaken(states[j].threads[t], k) && ItemRead(states, moves, j, t, k);
    var i: nat :| LastRead(states, moves, i, j, t, p, a.out[k]);
    SlotsAreAccountedFor(states, moves, i);
    var slot, s := p % RING_QUEUE_SIZE, states[i];
    assert SlotProvenance(s.buffer[slot], s.writer[slot], slot, s.log, s.stored);
  }
}
