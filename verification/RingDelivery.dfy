/** Which item a consumer of the shared ring queue receives. */
module RingDelivery {
  import opened Words
  import opened RingMachine
  import opened RingSafety

  /**
   The handoff a claim-then-store protocol relies on: consumers wait for the store of what they take, and
   producers wait for copies of what they overwrite. The source enforces neither.
   */
  ghost predicate Handoff(s: State, m: Move)
    requires ValidMove(s, m)
  {
    ConsumersWait(s, m) && ProducersWait(s, m)
  }

  /** A consumer reads or claims only positions whose producer has stored. */
  ghost predicate ConsumersWait(s: State, m: Move)
    requires ValidMove(s, m)
  {
    match s.threads[m.thread]
    case Reading(_, first) => first.pos == s.H ==> first.pos in s.stored
    case Claiming(op, first, n, _) =>
      op.PopBatch? && first.pos == s.H ==> forall p :: first.pos <= p < first.pos + n ==> p in s.stored
    case _ => true
  }

  /** A producer does not store one lap ahead of a position that a batch removal is still to copy out. */
  ghost predicate ProducersWait(s: State, m: Move)
    requires ValidMove(s, m)
  {
    match s.threads[m.thread]
    case Copying(op, _, base, n, done, _) =>
      op.Producer() && done < n ==>
        forall u :: 0 <= u < |s.threads| ==> !StillCopied(s.threads[u], base + done - RING_QUEUE_SIZE)
    case _ => true
  }

  /** Position p is claimed by a batch removal that has not copied it out yet. */
  predicate StillCopied(l: Local, p: int) {
    l.Copying? && l.op.PopBatch? && l.base + l.done <= p < l.base + l.n
  }

  /** Position p is claimed by a producer that has not stored it yet. */
  predicate Unstored(l: Local, p: int) {
    l.Copying? && l.op.Producer() && l.base + l.done <= p < l.base + l.n
  }

  ghost predicate ThreadDelivers(l: Local, H: nat, log: seq<int>, stored: set<nat>, buffer: seq<int>)
    requires |buffer| == RING_QUEUE_SIZE && H <= |log| && LocalInv(l, H, |log|, log)
  {
    && (l.Claiming? && l.op.Pop? && l.first.pos == H ==> H in stored && l.value == log[H])
    && (forall p: nat :: Unstored(l, p) ==> p !in stored)
    && (forall p: nat :: StillCopied(l, p) ==>
          buffer[p % RING_QUEUE_SIZE] == log[p] && p + RING_QUEUE_SIZE !in stored)
    && (l.Copying? && l.op.PopBatch? ==> l.out == log[l.base..l.base + l.done])
    && (l.Counting? && l.op.Consumer() ==> l.out == log[l.base..l.base + l.n])
    && (l.Idle? ==> Delivered(l.answer, log))
  }

  /** The items a finished call returned are the items pushed at the positions it claimed. */
  predicate Delivered(a: Answer, log: seq<int>) {
    a.Popped? ==> a.out == [] || (a.base + |a.out| <= |log| && a.out == log[a.base..a.base + |a.out|])
  }

  ghost predicate SlotsInv(s: State)
    requires SharedInv(s)
  {
    && (forall p :: p in s.stored ==> p < s.T)
    && (forall p: nat :: p < s.H ==> p in s.stored)
    && (forall p :: p in s.stored && s.H <= p ==> s.buffer[p % RING_QUEUE_SIZE] == s.log[p])
    && (forall t, u, p: nat :: 0 <= t < |s.threads| && 0 <= u < |s.threads| && t != u ==>
          !(Unstored(s.threads[t], p) && Unstored(s.threads[u], p)))
  }

  ghost predicate DeliveryInv(s: State) {
    && Inv(s)
    && SlotsInv(s)
    && (forall t :: 0 <= t < |s.threads| ==> ThreadDelivers(s.threads[t], s.H, s.log, s.stored, s.buffer))
  }

  lemma InitialDelivery(threads: nat)
    ensures DeliveryInv(Initial(threads))
  {
  }

  lemma ClaimTailDelivery(s: State, t: nat)
    requires t < |s.threads| && s.threads[t].Claiming? && s.threads[t].op.Producer()
    requires DeliveryInv(s) && s.T == s.threads[t].first.pos
    ensures DeliveryInv(ClaimTail(s, t))
  {
    ClaimTailInv(s, t);
    var s' := ClaimTail(s, t);
    ClaimTailSlots(s, t);
    assert ThreadDelivers(s'.threads[t], s'.H, s'.log, s'.stored, s'.buffer);
    forall u | 0 <= u < |s'.threads| && u != t
      ensures ThreadDelivers(s'.threads[u], s'.H, s'.log, s'.stored, s'.buffer)
    {
      LogGrows(s.threads[u], s.H, s.log, s'.log, s.stored, s.buffer);
    }
  }

  /** The positions just claimed are nobody else's, and not stored yet. */
  lemma ClaimTailSlots(s: State, t: nat)
    requires t < |s.threads| && s.threads[t].Claiming? && s.threads[t].op.Producer()
    requires DeliveryInv(s) && s.T == s.threads[t].first.pos && Inv(ClaimTail(s, t))
    ensures SlotsInv(ClaimTail(s, t))
  {
    var s' := ClaimTail(s, t);
    forall v, u, p: nat | 0 <= v < |s'.threads| && 0 <= u < |s'.threads| && v != u
      ensures !(Unstored(s'.threads[v], p) && Unstored(s'.threads[u], p))
    {
      assert !(Unstored(s.threads[v], p) && Unstored(s.threads[u], p));
      assert LocalInv(s.threads[v], s.H, s.T, s.log) && LocalInv(s.threads[u], s.H, s.T, s.log);
    }
  }

  /** A longer log says the same about the positions a thread knows. */
  lemma LogGrows(l: Local, H: nat, log: seq<int>, log': seq<int>, stored: set<nat>, buffer: seq<int>)
    requires |buffer| == RING_QUEUE_SIZE && H <= |log| <= |log'|
    requires LocalInv(l, H, |log|, log) && LocalInv(l, H, |log'|, log')
    requires ThreadDelivers(l, H, log, stored, buffer)
    requires log <= log'
    ensures ThreadDelivers(l, H, log', stored, buffer)
  {
    assert forall i, j :: 0 <= i <= j <= |log| ==> log'[i..j] == log[i..j];
  }

  lemma ClaimHeadDelivery(s: State, t: nat)
    requires t < |s.threads| && s.threads[t].Claiming? && s.threads[t].op.Consumer()
    requires DeliveryInv(s) && s.H == s.threads[t].first.pos
    requires s.threads[t].op.PopBatch? ==> forall p :: s.H <= p < s.H + s.threads[t].n ==> p in s.stored
    ensures DeliveryInv(ClaimHead(s, t))
  {
    ClaimHeadInv(s, t);
    assert ThreadDelivers(s.threads[t], s.H, s.log, s.stored, s.buffer);
    var s' := ClaimHead(s, t);
    ClaimerDelivers(s, t);
    forall u | 0 <= u < |s'.threads| && u != t
      ensures ThreadDelivers(s'.threads[u], s'.H, s'.log, s'.stored, s'.buffer)
    {
      assert ThreadDelivers(s.threads[u], s.H, s.log, s.stored, s.buffer);
      HeadGrows(s.threads[u], s, s'.H);
    }
  }

  lemma ClaimerDelivers(s: State, t: nat)
    requires t < |s.threads| && s.threads[t].Claiming? && s.threads[t].op.Consumer()
    requires DeliveryInv(s) && s.H == s.threads[t].first.pos && Inv(ClaimHead(s, t))
    requires s.threads[t].op.PopBatch? ==> forall p :: s.H <= p < s.H + s.threads[t].n ==> p in s.stored
    ensures
      var s' := ClaimHead(s, t);
      SlotsInv(s') && ThreadDelivers(s'.threads[t], s'.H, s'.log, s'.stored, s'.buffer)
  {
    assert ThreadDelivers(s.threads[t], s.H, s.log, s.stored, s.buffer);
    assert s.log[s.H..s.H + 1] == [s.log[s.H]];
  }

  lemma HeadGrows(l: Local, s: State, H': nat)
    requires SharedInv(s) && s.H < H' <= s.T
    requires LocalInv(l, s.H, s.T, s.log) && LocalInv(l, H', s.T, s.log)
    requires ThreadDelivers(l, s.H, s.log, s.stored, s.buffer)
    ensures ThreadDelivers(l, H', s.log, s.stored, s.buffer)
  {
  }

  /** The store of position q by thread t. */
  predicate Storing(s: State, t: nat, q: nat) {
    && t < |s.threads|
    && var l := s.threads[t];
       l.Copying? && l.op.Producer() && l.done < l.n && q == l.base + l.done
  }

  /** A store hits no slot anybody still needs. */
  lemma StoreDelivery(s: State, t: nat, q: nat)
    requires DeliveryInv(s) && Storing(s, t, q)
    requires forall u :: 0 <= u < |s.threads| ==> !StillCopied(s.threads[u], q - RING_QUEUE_SIZE)
    requires Inv(CopyOne(s, t))
    ensures DeliveryInv(CopyOne(s, t))
  {
    var l := s.threads[t];
    var s' := CopyOne(s, t);
    assert Unstored(l, q);
    StoredItem(s, t, q);
    StoreKeepsSlots(s, t, q);
    forall u | 0 <= u < |s'.threads|
      ensures ThreadDelivers(s'.threads[u], s'.H, s'.log, s'.stored, s'.buffer)
    {
      assert ThreadDelivers(s.threads[u], s.H, s.log, s.stored, s.buffer);
      if u != t {
        StoreMissesCopies(s, t, q, u);
        assert !Unstored(s.threads[u], q);
      }
    }
  }

  lemma StoredItem(s: State, t: nat, q: nat)
    requires Inv(s) && Storing(s, t, q)
    ensures CopyOne(s, t).buffer == s.buffer[q % RING_QUEUE_SIZE := s.log[q]]
  {
    AccessesInBounds(s, t);
    var l := s.threads[t];
    assert l.op.Offered()[..l.n][l.done] == s.log[l.base..l.base + l.n][l.done];
  }

  lemma StoreKeepsSlots(s: State, t: nat, q: nat)
    requires DeliveryInv(s) && Storing(s, t, q) && Inv(CopyOne(s, t))
    ensures SlotsInv(CopyOne(s, t))
    ensures s.H <= q && q !in s.stored
  {
    var l := s.threads[t];
    assert Unstored(l, q);
    assert ThreadDelivers(l, s.H, s.log, s.stored, s.buffer);
    StoredItem(s, t, q);
    forall p | p in s.stored && s.H <= p
      ensures p % RING_QUEUE_SIZE != q % RING_QUEUE_SIZE
    {
      if p < q { SlotsDiffer(p, q); } else { SlotsDiffer(q, p); }
    }
    var s' := CopyOne(s, t);
    forall v, u, p: nat | 0 <= v < |s'.threads| && 0 <= u < |s'.threads| && v != u
      ensures !(Unstored(s'.threads[v], p) && Unstored(s'.threads[u], p))
    {
      assert !(Unstored(s.threads[v], p) && Unstored(s.threads[u], p));
    }
  }

  lemma StoreMissesCopies(s: State, t: nat, q: nat, u: nat)
    requires DeliveryInv(s) && Storing(s, t, q) && u < |s.threads|
    requires s.H <= q && !StillCopied(s.threads[u], q - RING_QUEUE_SIZE)
    ensures forall p: nat :: StillCopied(s.threads[u], p) ==>
              p % RING_QUEUE_SIZE != q % RING_QUEUE_SIZE && p + RING_QUEUE_SIZE != q
  {
    forall p: nat | StillCopied(s.threads[u], p)
      ensures p % RING_QUEUE_SIZE != q % RING_QUEUE_SIZE && p + RING_QUEUE_SIZE != q
    {
      assert ThreadDelivers(s.threads[u], s.H, s.log, s.stored, s.buffer);
      assert s.H <= p + RING_QUEUE_SIZE;
      SlotsMeetAfterOneLap(p, q);
    }
  }

  lemma CopyOutDelivery(s: State, t: nat)
    requires DeliveryInv(s) && t < |s.threads|
    requires var l := s.threads[t]; l.Copying? && (l.op.PopBatch? || l.done == l.n)
    requires Inv(CopyOne(s, t))
    ensures DeliveryInv(CopyOne(s, t))
  {
    var l := s.threads[t];
    var l' := CopyOne(s, t).threads[t];
    assert ThreadDelivers(l, s.H, s.log, s.stored, s.buffer);
    if l.done < l.n {
      CopiedItem(s, t);
      assert forall p: nat :: StillCopied(l', p) ==> StillCopied(l, p);
    } else {
      assert l'.Counting?;
    }
    assert ThreadDelivers(l', s.H, s.log, s.stored, s.buffer);
    OneThreadMoved(s, t, l');
  }

  lemma CopiedItem(s: State, t: nat)
    requires DeliveryInv(s) && t < |s.threads|
    requires var l := s.threads[t]; l.Copying? && l.op.PopBatch? && l.done < l.n
    ensures
      var l, l' := s.threads[t], CopyOne(s, t).threads[t];
      && l'.Copying? && CopyOne(s, t) == Goto(s, t, l')
      && l' == l.(done := l.done + 1, out := l'.out)
      && l'.out == s.log[l.base..l.base + l.done + 1]
  {
    AccessesInBounds(s, t);
    var l := s.threads[t];
    assert ThreadDelivers(l, s.H, s.log, s.stored, s.buffer);
    assert StillCopied(l, l.base + l.done);
    assert s.log[l.base..l.base + l.done + 1] == s.log[l.base..l.base + l.done] + [s.log[l.base + l.done]];
  }

  /** A step that only changes its own thread keeps the invariant when the new local state is in order. */
  lemma OneThreadMoved(s: State, t: nat, l: Local)
    requires DeliveryInv(s) && t < |s.threads|
    requires LocalInv(l, s.H, s.T, s.log) && ThreadDelivers(l, s.H, s.log, s.stored, s.buffer)
    requires forall p: nat :: Unstored(l, p) ==> Unstored(s.threads[t], p)
    ensures DeliveryInv(Goto(s, t, l))
  {
    var s' := Goto(s, t, l);
    forall v, u, p: nat | 0 <= v < |s'.threads| && 0 <= u < |s'.threads| && v != u
      ensures !(Unstored(s'.threads[v], p) && Unstored(s'.threads[u], p))
    {
      assert !(Unstored(s.threads[v], p) && Unstored(s.threads[u], p));
    }
  }

  lemma ReadDelivery(s: State, t: nat)
    requires DeliveryInv(s) && t < |s.threads| && s.threads[t].Reading?
    requires s.threads[t].first.pos == s.H ==> s.H in s.stored
    ensures
      var first := s.threads[t].first;
      var l := Claiming(s.threads[t].op, first, 1, Peek(s.buffer, Slot(first.word)));
      LocalInv(l, s.H, s.T, s.log) && ThreadDelivers(l, s.H, s.log, s.stored, s.buffer)
  {
    SlotOfPosition(s.threads[t].first.pos);
  }

  lemma ClaimDelivery(s: State, m: Move)
    requires ValidMove(s, m) && DeliveryInv(s) && NoAba(s, m) && Handoff(s, m)
    requires s.threads[m.thread].Claiming?
    ensures DeliveryInv(CompareExchange(s, m.thread, m.spurious))
  {
    var t, l := m.thread, s.threads[m.thread];
    SuccessMeansUnmoved(s, m);
    if l.op.Producer() && s.T == l.first.pos && !m.spurious {
      ClaimTailDelivery(s, t);
    } else if l.op.Consumer() && s.H == l.first.pos && !m.spurious {
      ClaimHeadDelivery(s, t);
    } else {
      OneThreadMoved(s, t, AfterLoss(l.op));
    }
  }

  /** The remaining local steps: nothing is known of the new local state beyond its invariant. */
  lemma PlainDelivery(s: State, t: nat, l: Local)
    requires DeliveryInv(s) && t < |s.threads| && LocalInv(l, s.H, s.T, s.log)
    requires
      || l.Start? || l.Loaded? || l.Reading? || l.Failing?
      || (l.Claiming? && !l.op.Pop?)
      || (l.Idle? && (l.answer.Popped? ==> l.answer.out == []))
    ensures DeliveryInv(Goto(s, t, l))
  {
    OneThreadMoved(s, t, l);
  }

  lemma QuietDelivery(s: State, m: Move)
    requires ValidMove(s, m) && DeliveryInv(s) && Inv(Next(s, m))
    requires var l := s.threads[m.thread]; l.Idle? || l.Start? || l.Loaded? || l.Failing?
    ensures DeliveryInv(Next(s, m))
  {
    PlainDelivery(s, m.thread, Next(s, m).threads[m.thread]);
  }

  lemma CountDelivery(s: State, t: nat)
    requires DeliveryInv(s) && t < |s.threads| && s.threads[t].Counting?
    ensures DeliveryInv(CountMoved(s, t))
  {
    assert ThreadDelivers(s.threads[t], s.H, s.log, s.stored, s.buffer);
    OneThreadMoved(s, t, CountMoved(s, t).threads[t]);
  }

  lemma NextDelivery(s: State, m: Move)
    requires ValidMove(s, m) && DeliveryInv(s) && NoAba(s, m) && Handoff(s, m)
    ensures DeliveryInv(Next(s, m))
  {
    NextInv(s, m);
    var t := m.thread;
    match s.threads[t]
    case Claiming(_, _, _, _) => ClaimDelivery(s, m);
    case Copying(op, _, base, n, done, _) =>
      if op.Producer() && done < n {
        StoreDelivery(s, t, base + done);
      } else {
        CopyOutDelivery(s, t);
      }
    case Reading(op, first) =>
      ReadDelivery(s, t);
      OneThreadMoved(s, t, Claiming(op, first, 1, Peek(s.buffer, Slot(first.word))));
    case Counting(_, _, _, _) => CountDelivery(s, t);
    case _ => QuietDelivery(s, m);
  }

  ghost predicate HandoffRun(states: seq<State>, moves: seq<Move>) {
    && FreshRun(states, moves)
    && (forall i :: 0 <= i < |moves| ==> Handoff(states[i], moves[i]))
  }

  /**
   With the handoff kept, in every interleaving each single pop and each batch removal that finished
   returned exactly the items pushed at the positions it claimed.
   */
  lemma {:induction false} ConsumersReceiveWhatWasPushed(states: seq<State>, moves: seq<Move>, i: nat)
    requires HandoffRun(states, moves) && i < |states|
    ensures DeliveryInv(states[i])
    ensures forall t :: 0 <= t < |states[i].threads| && states[i].threads[t].Idle? ==>
              Delivered(states[i].threads[t].answer, states[i].log)
    decreases i
  {
    if i == 0 {
      var threads: nat :| states[0] == Initial(threads);
      InitialDelivery(threads);
    } else {
      ConsumersReceiveWhatWasPushed(states, moves, i - 1);
      assert ValidMove(states[i - 1], moves[i - 1]) && NoAba(states[i - 1], moves[i - 1]);
      NextDelivery(states[i - 1], moves[i - 1]);
      assert states[i] == Next(states[i - 1], moves[i - 1]);
    }
    forall t | 0 <= t < |states[i].threads| && states[i].threads[t].Idle?
      ensures Delivered(states[i].threads[t].answer, states[i].log)
    {
      assert ThreadDelivers(states[i].threads[t], states[i].H, states[i].log, states[i].stored, states[i].buffer);
    }
  }
}
