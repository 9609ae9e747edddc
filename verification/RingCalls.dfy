/**
 Whole calls on the shared ring queue, from the first step to the answer, in every interleaving: what a call
 claimed, and what it saw when it claimed nothing.
 */
module RingCalls {
  import opened Words
  import opened RingMachine
  import opened RingSafety
  import opened RingObservations
  import opened RingOrigins

  /** The index an operation claims on. */
  function Index(s: State, op: Op): nat {
    if op.Producer() then s.T else s.H
  }

  /** How many items an operation moves that finds the queue at length q. */
  function Amount(op: Op, q: nat): nat
    requires q <= RING_QUEUE_SIZE
  {
    match op
    case Push(_) => Min(1, RING_QUEUE_SIZE - q)
    case PushBatch(items) => Min(|items|, RING_QUEUE_SIZE - q)
    case Pop => Min(1, q)
    case PopBatch(count) => Min(count, q)
    case _ => 0
  }

  /**
   When the index has not moved between the two loads, the decision is to move exactly what fits or is
   there: min(|items|, free) for a batch insertion, min(count, size) for a batch removal.
   */
  lemma DecisionTakesWhatFits(s: State, m: Move)
    requires Deciding(s, m)
    requires var l := s.threads[m.thread]; (l.op.Producer() || l.op.Consumer()) && l.first.pos == Index(s, l.op)
    ensures
      var l, l' := s.threads[m.thread], Next(s, m).threads[m.thread];
      var n := Amount(l.op, |Queue(s)|);
      if n == 0 then (if l.op.Producer() then l'.Failing? else SaysEmpty(l.op, l'))
      else if l.op.Pop? then l' == Reading(l.op, l.first)
      else l'.Claiming? && l'.op == l.op && l'.first == l.first && l'.n == n
  {
    var l := s.threads[m.thread];
    SubExact(s.T, s.H);
    if l.op.Producer() {
      FreeSpaceExact(s.T, s.H);
    }
  }

  /** Every second load in the run happens while both indices are within a word's range of the first. */
  ghost predicate PromptRun(states: seq<State>, moves: seq<Move>) {
    && FreshRun(states, moves)
    && (forall i :: 0 <= i < |moves| && moves[i].thread < |states[i].threads| && states[i].threads[moves[i].thread].Loaded? ==>
          && states[i].T < states[i].threads[moves[i].thread].first.pos + WORD
          && states[i].H + RING_QUEUE_SIZE < states[i].threads[moves[i].thread].first.pos + WORD)
  }

  /** Thread t has been in one call from its first step i up to state h. */
  ghost predicate InCall(states: seq<State>, moves: seq<Move>, i: nat, h: nat, t: nat) {
    && i < h < |states| == |moves| + 1
    && moves[i].thread == t < |states[i].threads| && states[i].threads[t].Idle?
    && (forall k :: i < k <= h ==> t < |states[k].threads|)
    && (forall k :: i < k < h ==> !states[k].threads[t].Idle?)
  }

  // ---- what a call saw on its way ----

  datatype Event =
    | SawFull                             // at its second load, of a ring with no room left for it
    | SawEmpty                            // at its second load
    | LostExchange
    | Decided(op: Op, first: Snap, n: nat)
    | Took(op: Op, n: nat)

  /** A producer's second load finds the ring full, or finds that consumers have passed the tail it loaded. */
  ghost predicate NoRoomAt(s: State, t: nat) {
    && t < |s.threads| && Inv(s)
    && var l := s.threads[t];
       l.Loaded? && l.op.Producer() &&
       ((|Queue(s)| == RING_QUEUE_SIZE && l.first.pos == s.T) || (l.op.Push? && l.first.pos < s.H))
  }

  /** A consumer's second load finds the queue empty, and the head where it loaded it. */
  ghost predicate EmptyAt(s: State, t: nat) {
    && t < |s.threads| && Inv(s)
    && s.threads[t].Loaded? && s.threads[t].op.Consumer()
    && Queue(s) == [] && s.threads[t].first.pos == s.H
  }

  ghost predicate HappensAt(s: State, m: Move, t: nat, e: Event) {
    && m.thread == t < |s.threads| && Inv(s)
    && var l := s.threads[t];
       match e
       case SawFull => NoRoomAt(s, t)
       case SawEmpty => EmptyAt(s, t)
       case LostExchange => l.Claiming? && (m.spurious || l.first.pos != Index(s, l.op))
       case Decided(op, first, n) =>
         l == Loaded(op, first) && (first.pos == Index(s, op) ==> n == Amount(op, |Queue(s)|))
       case Took(op, n) =>
         l.Loaded? && l.op == op && l.first.pos == Index(s, op) && n == Amount(op, |Queue(s)|)
  }

  ghost predicate Happens(states: seq<State>, moves: seq<Move>, d: nat, t: nat, e: Event) {
    d < |states| && d < |moves| && HappensAt(states[d], moves[d], t, e)
  }

  ghost predicate Happened(states: seq<State>, moves: seq<Move>, i: nat, h: nat, t: nat, e: Event) {
    exists d: nat :: i < d < h && Happens(states, moves, d, t, e)
  }

  lemma StillHappened(states: seq<State>, moves: seq<Move>, i: nat, h: nat, t: nat)
    ensures forall e :: Happened(states, moves, i, h, t, e) ==> Happened(states, moves, i, h + 1, t, e)
  {
  }

  // ---- what a call claimed ----

  function Mine(claims: seq<Claim>, t: nat): seq<Claim> {
    if claims == [] then []
    else
      var k := |claims| - 1;
      Mine(claims[..k], t) + (if claims[k].thread == t then [claims[k]] else [])
  }

  lemma MineMore(claims: seq<Claim>, c: Claim, t: nat)
    ensures Mine(claims + [c], t) == Mine(claims, t) + (if c.thread == t then [c] else [])
  {
    assert (claims + [c])[..|claims|] == claims;
  }

  /** Thread t made no claim between the two states. */
  ghost predicate ClaimedNothing(s0: State, s: State, t: nat) {
    Mine(s.pushClaims, t) == Mine(s0.pushClaims, t) && Mine(s.popClaims, t) == Mine(s0.popClaims, t)
  }

  /** Thread t made exactly one claim, for op: n positions from base on; a producer's hold the first n items offered. */
  ghost predicate ClaimedOnce(s0: State, s: State, t: nat, op: Op, base: nat, n: nat) {
    && n > 0
    && Mine(s.pushClaims, t) == Mine(s0.pushClaims, t) + (if op.Producer() then [Claim(t, base, n)] else [])
    && Mine(s.popClaims, t) == Mine(s0.popClaims, t) + (if op.Producer() then [] else [Claim(t, base, n)])
    && (op.Producer() ==> n <= |op.Offered()| && base + n <= |s.log| && s.log[base..base + n] == op.Offered()[..n])
  }

  /** What a call answers that moved nothing. */
  function Refusal(op: Op): Answer {
    match op
    case PushBatch(_) => Pushed(0, 0)
    case PopBatch(_) => Popped([], 0)
    case _ => Flag(false)
  }

  function Moved(a: Answer): nat {
    match a
    case Pushed(n, _) => n
    case Popped(out, _) => |out|
    case _ => 0
  }

  /** Why a call may have moved nothing. Only a batch gives up after a lost exchange. */
  ghost predicate Excused(states: seq<State>, moves: seq<Move>, i: nat, h: nat, t: nat, op: Op) {
    || (op.PushBatch? && op.items == [])
    || (op.PopBatch? && op.count == 0)
    || (op.Producer() && Happened(states, moves, i, h, t, SawFull))
    || (op.Consumer() && Happened(states, moves, i, h, t, SawEmpty))
    || ((op.PushBatch? || op.PopBatch?) && Happened(states, moves, i, h, t, LostExchange))
  }

  /**
   The answer of a finished call that inserts or removes: either it made one claim, of exactly as many
   items as it had seen fit or be there, and says so, or it made none and has a reason.
   */
  ghost predicate Answered(states: seq<State>, moves: seq<Move>, i: nat, h: nat, t: nat, op: Op, a: Answer)
    requires i < |states| && h < |states|
  {
    if Moved(a) > 0 then
      && (if op.Producer() then a.Pushed? else a.Popped?)
      && ClaimedOnce(states[i], states[h], t, op, a.base, Moved(a))
      && Happened(states, moves, i, h, t, Took(op, Moved(a)))
    else
      && a == Refusal(op)
      && ClaimedNothing(states[i], states[h], t)
      && Excused(states, moves, i, h, t, op)
  }

  ghost predicate Underway(states: seq<State>, moves: seq<Move>, i: nat, h: nat, t: nat)
    requires InCall(states, moves, i, h, t)
  {
    var op, s0, s := moves[i].op, states[i], states[h];
    match s.threads[t]
    case Idle(a) => (op.Producer() || op.Consumer()) ==> Answered(states, moves, i, h, t, op, a)
    case Start(o) => o == op && ClaimedNothing(s0, s, t)
    case Loaded(o, _) => o == op && ClaimedNothing(s0, s, t)
    case Reading(o, first) =>
      o == op && ClaimedNothing(s0, s, t) && Happened(states, moves, i, h, t, Decided(op, first, 1))
    case Claiming(o, first, n, _) =>
      o == op && ClaimedNothing(s0, s, t) && Happened(states, moves, i, h, t, Decided(op, first, n))
    case Copying(o, _, base, n, _, _) =>
      o == op && ClaimedOnce(s0, s, t, op, base, n) && Happened(states, moves, i, h, t, Took(op, n))
    case Counting(o, base, n, _) =>
      o == op && ClaimedOnce(s0, s, t, op, base, n) && Happened(states, moves, i, h, t, Took(op, n))
    case Failing(o) =>
      o == op && op.Producer() && ClaimedNothing(s0, s, t) && Happened(states, moves, i, h, t, SawFull)
  }

  // ---- one step ----

  lemma ClaimsByOthers(s: State, m: Move, t: nat)
    requires ValidMove(s, m) && m.thread != t
    ensures Mine(Next(s, m).pushClaims, t) == Mine(s.pushClaims, t)
    ensures Mine(Next(s, m).popClaims, t) == Mine(s.popClaims, t)
  {
    var s' := Next(s, m);
    if |s'.pushClaims| > |s.pushClaims| {
      MineMore(s.pushClaims, s'.pushClaims[|s.pushClaims|], t);
    }
    if |s'.popClaims| > |s.popClaims| {
      MineMore(s.popClaims, s'.popClaims[|s.popClaims|], t);
    }
  }

  lemma OnceStays(s0: State, s: State, s': State, t: nat, op: Op, base: nat, n: nat)
    requires ClaimedOnce(s0, s, t, op, base, n) && s.log <= s'.log
    requires ClaimedNothing(s, s', t)
    ensures ClaimedOnce(s0, s', t, op, base, n)
  {
    if op.Producer() {
      assert s'.log[base..base + n] == s.log[base..base + n];
    }
  }

  lemma OthersMove(states: seq<State>, moves: seq<Move>, i: nat, h: nat, t: nat)
    requires FreshRun(states, moves) && InCall(states, moves, i, h, t) && InCall(states, moves, i, h + 1, t)
    requires moves[h].thread != t && Underway(states, moves, i, h, t)
    ensures Underway(states, moves, i, h + 1, t)
  {
    var s, m, s' := states[h], moves[h], states[h + 1];
    assert ValidMove(s, m) && s' == Next(s, m);
    LogOnlyGrows(s, m);
    ClaimsByOthers(s, m, t);
    StillHappened(states, moves, i, h, t);
    match s.threads[t]
    case Copying(op, _, base, n, _, _) => OnceStays(states[i], s, s', t, op, base, n);
    case Counting(op, base, n, _) => OnceStays(states[i], s, s', t, op, base, n);
    case _ =>
  }

  /** A step other than a compare-exchange claims nothing and leaves the log alone. */
  lemma NoClaimMade(s: State, m: Move)
    requires ValidMove(s, m) && !s.threads[m.thread].Claiming?
    ensures ClaimedNothing(s, Next(s, m), m.thread) && Next(s, m).log == s.log
  {
  }

  lemma Begins(states: seq<State>, moves: seq<Move>, i: nat, t: nat)
    requires Run(states, moves) && InCall(states, moves, i, i + 1, t)
    ensures Underway(states, moves, i, i + 1, t)
  {
    assert ValidMove(states[i], moves[i]) && states[i + 1] == Next(states[i], moves[i]);
    NoClaimMade(states[i], moves[i]);
  }

  lemma JustHappened(states: seq<State>, moves: seq<Move>, i: nat, h: nat, t: nat, e: Event)
    requires i < h && Happens(states, moves, h, t, e)
    ensures Happened(states, moves, i, h + 1, t, e)
  {
  }

  /** The second load: the thread knows what it will do, and has its reason if that is nothing. */
  lemma Decides(states: seq<State>, moves: seq<Move>, i: nat, h: nat, t: nat)
    requires PromptRun(states, moves) && InCall(states, moves, i, h, t) && InCall(states, moves, i, h + 1, t)
    requires moves[h].thread == t && states[h].threads[t].Loaded? && Underway(states, moves, i, h, t)
    ensures Underway(states, moves, i, h + 1, t)
  {
    var s, m := states[h], moves[h];
    IndicesStayWithinOneLap(states, moves);
    assert ValidMove(s, m) && states[h + 1] == Next(s, m) && Inv(s);
    NoClaimMade(s, m);
    var op, first, l' := s.threads[t].op, s.threads[t].first, states[h + 1].threads[t];
    if op.Producer() || op.Consumer() {
      DecisionOf(s, m);
      match l'
      case Failing(_) => JustHappened(states, moves, i, h, t, SawFull);
      case Idle(_) => JustHappened(states, moves, i, h, t, SawEmpty);
      case Reading(_, _) => JustHappened(states, moves, i, h, t, Decided(op, first, 1));
      case Claiming(_, _, n, _) => JustHappened(states, moves, i, h, t, Decided(op, first, n));
    }
  }

  lemma DecisionOf(s: State, m: Move)
    requires Deciding(s, m)
    requires var l := s.threads[m.thread]; l.op.Producer() || l.op.Consumer()
    ensures
      var l, l' := s.threads[m.thread], Next(s, m).threads[m.thread];
      match l'
      case Failing(o) => o == l.op && HappensAt(s, m, m.thread, SawFull)
      case Idle(a) => l.op.Consumer() && a == Refusal(l.op) && HappensAt(s, m, m.thread, SawEmpty)
      case Reading(o, first) => o == l.op && first == l.first && HappensAt(s, m, m.thread, Decided(o, first, 1))
      case Claiming(o, first, n, _) => o == l.op && first == l.first && HappensAt(s, m, m.thread, Decided(o, first, n))
      case _ => false
  {
    var l := s.threads[m.thread];
    if l.first.pos == Index(s, l.op) {
      DecisionTakesWhatFits(s, m);
    }
    if l.op.Producer() {
      PushIsRefusedIff(s, m);
    } else {
      EmptyIsAnsweredIff(s, m);
    }
  }

  /** The compare-exchange: one claim of the amount decided on, or a loss, after which only a batch gives up. */
  lemma Exchanges(states: seq<State>, moves: seq<Move>, i: nat, h: nat, t: nat)
    requires PromptRun(states, moves) && InCall(states, moves, i, h, t) && InCall(states, moves, i, h + 1, t)
    requires moves[h].thread == t && states[h].threads[t].Claiming? && Underway(states, moves, i, h, t)
    ensures Underway(states, moves, i, h + 1, t)
  {
    var s, m, s' := states[h], moves[h], states[h + 1];
    IndicesStayWithinOneLap(states, moves);
    assert ValidMove(s, m) && NoAba(s, m) && s' == Next(s, m) && Inv(s);
    var l := s.threads[t];
    ExchangeOf(s, m);
    if Succeeds(s, m) {
      StillHappened(states, moves, i, h, t);
      TakesWhatItSaw(states, moves, i, h, t, l.op, l.first, l.n);
    } else {
      JustHappened(states, moves, i, h, t, LostExchange);
    }
  }

  lemma ExchangeOf(s: State, m: Move)
    requires ValidMove(s, m) && Inv(s) && NoAba(s, m) && s.threads[m.thread].Claiming?
    ensures
      var s', l, l' := Next(s, m), s.threads[m.thread], Next(s, m).threads[m.thread];
      if Succeeds(s, m) then
        && (l'.Copying? || l'.Counting?) && l'.op == l.op && l'.n == l.n
        && ClaimedOnce(s, s', m.thread, l.op, l'.base, l.n)
      else
        && ClaimedNothing(s, s', m.thread)
        && HappensAt(s, m, m.thread, LostExchange)
        && l' == (if l.op.Push? || l.op.Pop? then Start(l.op) else Idle(Refusal(l.op)))
  {
    var t, l, s' := m.thread, s.threads[m.thread], Next(s, m);
    SuccessMeansUnmoved(s, m);
    if Succeeds(s, m) {
      if l.op.Producer() {
        MineMore(s.pushClaims, Claim(t, s.T, l.n), t);
        assert s'.log[s.T..s.T + l.n] == l.op.Offered()[..l.n];
      } else {
        MineMore(s.popClaims, Claim(t, s.H, l.n), t);
      }
    }
  }

  lemma IndicesOnlyGrow(states: seq<State>, moves: seq<Move>, i: nat, j: nat)
    requires Run(states, moves) && i <= j < |states|
    ensures states[i].H <= states[j].H && states[i].T <= states[j].T
    decreases j - i
  {
    if i < j {
      IndicesOnlyGrow(states, moves, i, j - 1);
      assert ValidMove(states[j - 1], moves[j - 1]) && states[j] == Next(states[j - 1], moves[j - 1]);
    }
  }

  /** A claim can only succeed if its index was unmoved when the amount was decided on. */
  lemma TakesWhatItSaw(states: seq<State>, moves: seq<Move>, i: nat, h: nat, t: nat, op: Op, first: Snap, n: nat)
    requires FreshRun(states, moves) && h < |moves| && first.pos == Index(states[h], op)
    requires op.Producer() || op.Consumer()
    requires Happened(states, moves, i, h, t, Decided(op, first, n))
    ensures Happened(states, moves, i, h + 1, t, Took(op, n))
  {
    var d: nat :| i < d < h && Happens(states, moves, d, t, Decided(op, first, n));
    IndicesOnlyGrow(states, moves, d, h);
    assert LocalInv(states[d].threads[t], states[d].H, states[d].T, states[d].log);
    assert first.pos == Index(states[d], op);
    assert Happens(states, moves, d, t, Took(op, n));
  }

  /** The steps before a claim that are not the second load, and the count of a refused push. */
  lemma CarriesOn(states: seq<State>, moves: seq<Move>, i: nat, h: nat, t: nat)
    requires PromptRun(states, moves) && InCall(states, moves, i, h, t) && InCall(states, moves, i, h + 1, t)
    requires moves[h].thread == t && Underway(states, moves, i, h, t)
    requires var l := states[h].threads[t]; l.Start? || l.Reading? || l.Failing?
    ensures Underway(states, moves, i, h + 1, t)
  {
    assert ValidMove(states[h], moves[h]) && states[h + 1] == Next(states[h], moves[h]);
    NoClaimMade(states[h], moves[h]);
    StillHappened(states, moves, i, h, t);
  }

  /** The steps after a claim carry it along to the answer. */
  lemma CarriesTheClaim(states: seq<State>, moves: seq<Move>, i: nat, h: nat, t: nat)
    requires PromptRun(states, moves) && InCall(states, moves, i, h, t) && InCall(states, moves, i, h + 1, t)
    requires moves[h].thread == t && Underway(states, moves, i, h, t)
    requires var l := states[h].threads[t]; l.Copying? || l.Counting?
    ensures Underway(states, moves, i, h + 1, t)
  {
    var s, m, s', l := states[h], moves[h], states[h + 1], states[h].threads[t];
    IndicesStayWithinOneLap(states, moves);
    assert ValidMove(s, m) && s' == Next(s, m) && Inv(s);
    NoClaimMade(s, m);
    StillHappened(states, moves, i, h, t);
    OnceStays(states[i], s, s', t, l.op, l.base, l.n);
  }

  /** In every run each call is at all times accounted for by what it has claimed and seen. */
  lemma {:induction false} EveryCallIsUnderway(states: seq<State>, moves: seq<Move>, i: nat, h: nat, t: nat)
    requires PromptRun(states, moves) && InCall(states, moves, i, h, t)
    ensures Underway(states, moves, i, h, t)
    decreases h
  {
    if h == i + 1 {
      Begins(states, moves, i, t);
    } else {
      assert InCall(states, moves, i, h - 1, t);
      EveryCallIsUnderway(states, moves, i, h - 1, t);
      NextUnderway(states, moves, i, h - 1, t);
    }
  }

  lemma NextUnderway(states: seq<State>, moves: seq<Move>, i: nat, h: nat, t: nat)
    requires PromptRun(states, moves) && InCall(states, moves, i, h, t) && InCall(states, moves, i, h + 1, t)
    requires Underway(states, moves, i, h, t)
    ensures Underway(states, moves, i, h + 1, t)
  {
    assert !states[h].threads[t].Idle?;
    var l := states[h].threads[t];
    if moves[h].thread != t {
      OthersMove(states, moves, i, h, t);
    } else if l.Loaded? {
      Decides(states, moves, i, h, t);
    } else if l.Claiming? {
      Exchanges(states, moves, i, h, t);
    } else if l.Copying? || l.Counting? {
      CarriesTheClaim(states, moves, i, h, t);
    } else {
      CarriesOn(states, moves, i, h, t);
    }
  }

  /**
   In every run a finished insertion or removal, single or batch, made exactly the claim it reports, of as
   many items as there were or fitted when it looked; or it moved nothing, says so, and has a reason.
   */
  lemma EveryCallAnswersForItself(states: seq<State>, moves: seq<Move>, i: nat, h: nat, t: nat)
    requires PromptRun(states, moves) && InCall(states, moves, i, h, t) && states[h].threads[t].Idle?
    requires moves[i].op.Producer() || moves[i].op.Consumer()
    ensures Answered(states, moves, i, h, t, moves[i].op, states[h].threads[t].answer)
  {
    EveryCallIsUnderway(states, moves, i, h, t);
  }

  /** A push is refused only if its own second load found no room; losing an exchange makes it try again. */
  lemma RefusedPushSawNoRoom(states: seq<State>, moves: seq<Move>, i: nat, h: nat, t: nat)
    requires PromptRun(states, moves) && InCall(states, moves, i, h, t) && moves[i].op.Push?
    requires states[h].threads[t] == Idle(Flag(false))
    ensures exists d: nat :: i < d < h && moves[d].thread == t && NoRoomAt(states[d], t)
  {
    EveryCallAnswersForItself(states, moves, i, h, t);
    var d: nat :| i < d < h && Happens(states, moves, d, t, SawFull);
    assert moves[d].thread == t && NoRoomAt(states[d], t);
  }

  /** A pop answers "empty" only if its own second load found the queue empty and the head unmoved. */
  lemma EmptyPopSawAnEmptyQueue(states: seq<State>, moves: seq<Move>, i: nat, h: nat, t: nat)
    requires PromptRun(states, moves) && InCall(states, moves, i, h, t) && moves[i].op.Pop?
    requires states[h].threads[t] == Idle(Flag(false))
    ensures exists d: nat :: i < d < h && moves[d].thread == t && EmptyAt(states[d], t)
  {
    EveryCallAnswersForItself(states, moves, i, h, t);
    var d: nat :| i < d < h && Happens(states, moves, d, t, SawEmpty);
    assert moves[d].thread == t && EmptyAt(states[d], t);
  }

  /** ... so with one producer, as in the accept loop, a push that answers false has seen the ring full. */
  lemma SolePushIsRefusedOnlyWhenFull(states: seq<State>, moves: seq<Move>, i: nat, h: nat, t: nat)
    requires PromptRun(states, moves) && InCall(states, moves, i, h, t) && moves[i].op.Push?
    requires SoleProducer(states, moves, t) && states[h].threads[t] == Idle(Flag(false))
    ensures exists d: nat :: i < d < h && SharedInv(states[d]) && |Queue(states[d])| == RING_QUEUE_SIZE
  {
    RefusedPushSawNoRoom(states, moves, i, h, t);
    var d: nat :| i < d < h && moves[d].thread == t && NoRoomAt(states[d], t);
    SoleProducerSeesTheTail(states, moves, t, d);
    assert SharedInv(states[d]) && |Queue(states[d])| == RING_QUEUE_SIZE;
  }
}
