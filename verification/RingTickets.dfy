/** Conservation of claimed positions and of the statistics counters. */
module RingTickets {
  import opened Words
  import opened RingMachine
  import opened RingSafety
  import opened Sums

  /** The claims cover 0, 1, ..., total-1 in order, each position once. */
  predicate Tile(claims: seq<Claim>, total: nat)
    decreases claims
  {
    if claims == [] then total == 0
    else
      var last := claims[|claims| - 1];
      last.start + last.n == total && Tile(claims[..|claims| - 1], last.start)
  }

  predicate Covers(c: Claim, p: nat) {
    c.start <= p < c.start + c.n
  }

  /** Every position below the counter belongs to exactly one claim, and no other position to any. */
  lemma {:induction false} EveryPositionHasOneOwner(claims: seq<Claim>, total: nat, p: nat)
    requires Tile(claims, total)
    ensures p < total <==> exists k :: 0 <= k < |claims| && Covers(claims[k], p)
    ensures forall j, k :: 0 <= j < |claims| && 0 <= k < |claims| && Covers(claims[j], p) && Covers(claims[k], p) ==> j == k
    decreases claims
  {
    if claims != [] {
      var k := |claims| - 1;
      var last := claims[k];
      EveryPositionHasOneOwner(claims[..k], last.start, p);
      if p < last.start {
        var j :| 0 <= j < k && Covers(claims[..k][j], p);
        assert Covers(claims[j], p);
      } else if p < total {
        assert Covers(claims[k], p);
      }
      forall j | 0 <= j < |claims| && Covers(claims[j], p)
        ensures p < total && (j < k ==> p < last.start)
      {
        if j < k {
          assert Covers(claims[..k][j], p);
        }
      }
      forall i, j | 0 <= i < |claims| && 0 <= j < |claims| && Covers(claims[i], p) && Covers(claims[j], p)
        ensures i == j
      {
        if i < k && j < k {
          assert Covers(claims[..k][i], p) && Covers(claims[..k][j], p);
        }
      }
    }
  }

  /** Items this thread has claimed for insertion but not yet added to push_count. */
  function UncountedPush(l: Local): nat {
    if (l.Copying? || l.Counting?) && l.op.Producer() then l.n else 0
  }

  function UncountedPop(l: Local): nat {
    if (l.Copying? || l.Counting?) && !l.op.Producer() then l.n else 0
  }

  /** A 64-bit counter, with what is still to be added to it, amounts to the unbounded total. */
  predicate Balanced(count: uint64, uncounted: nat, total: nat) {
    Wrap64(count + uncounted) == Wrap64(total)
  }

  ghost predicate TicketInv(s: State) {
    && Tile(s.pushClaims, s.T)
    && Tile(s.popClaims, s.H)
    && Balanced(s.pushCount, Sum(UncountedPush, s.threads), s.T)
    && Balanced(s.popCount, Sum(UncountedPop, s.threads), s.H)
  }

  lemma InitialTickets(threads: nat)
    ensures TicketInv(Initial(threads))
  {
    SumZero(UncountedPush, Initial(threads).threads);
    SumZero(UncountedPop, Initial(threads).threads);
  }

  lemma TicketsUpdate(ls: seq<Local>, t: nat, l: Local)
    requires t < |ls|
    ensures Sum(UncountedPush, ls[t := l]) + UncountedPush(ls[t]) == Sum(UncountedPush, ls) + UncountedPush(l)
    ensures Sum(UncountedPop, ls[t := l]) + UncountedPop(ls[t]) == Sum(UncountedPop, ls) + UncountedPop(l)
  {
    SumUpdate(UncountedPush, ls, t, l);
    SumUpdate(UncountedPop, ls, t, l);
  }

  lemma ClaimTailTickets(s: State, t: nat)
    requires t < |s.threads| && s.threads[t].Claiming? && s.threads[t].op.Producer() && TicketInv(s)
    ensures TicketInv(ClaimTail(s, t))
  {
    var l, s' := s.threads[t], ClaimTail(s, t);
    TicketsUpdate(s.threads, t, s'.threads[t]);
    TileMore(s.pushClaims, s.T, Claim(t, s.T, l.n));
    BalancedClaim(s.pushCount, Sum(UncountedPush, s.threads), s.T, l.n);
  }

  lemma ClaimHeadTickets(s: State, t: nat)
    requires t < |s.threads| && s.threads[t].Claiming? && !s.threads[t].op.Producer() && TicketInv(s)
    ensures TicketInv(ClaimHead(s, t))
  {
    var l, s' := s.threads[t], ClaimHead(s, t);
    TicketsUpdate(s.threads, t, s'.threads[t]);
    TileMore(s.popClaims, s.H, Claim(t, s.H, l.n));
    BalancedClaim(s.popCount, Sum(UncountedPop, s.threads), s.H, l.n);
  }

  lemma CountTickets(s: State, t: nat)
    requires t < |s.threads| && s.threads[t].Counting? && TicketInv(s)
    ensures TicketInv(CountMoved(s, t))
  {
    var l, s' := s.threads[t], CountMoved(s, t);
    TicketsUpdate(s.threads, t, s'.threads[t]);
    if l.op.Producer() {
      BalancedCount(s.pushCount, Sum(UncountedPush, s'.threads), s.T, l.n);
    } else {
      BalancedCount(s.popCount, Sum(UncountedPop, s'.threads), s.H, l.n);
    }
  }

  lemma OtherTickets(s: State, m: Move)
    requires ValidMove(s, m) && TicketInv(s) && !s.threads[m.thread].Counting?
    requires Next(s, m).wins == s.wins && Next(s, m).popWins == s.popWins
    ensures TicketInv(Next(s, m))
  {
    var t, s' := m.thread, Next(s, m);
    SameTickets(s, m);
    TicketsUpdate(s.threads, t, s'.threads[t]);
  }

  lemma SameTickets(s: State, m: Move)
    requires ValidMove(s, m) && !s.threads[m.thread].Counting?
    requires Next(s, m).wins == s.wins && Next(s, m).popWins == s.popWins
    ensures
      var t, s' := m.thread, Next(s, m);
      && s'.threads == s.threads[t := s'.threads[t]]
      && UncountedPush(s'.threads[t]) == UncountedPush(s.threads[t])
      && UncountedPop(s'.threads[t]) == UncountedPop(s.threads[t])
      && (s'.T, s'.H, s'.pushCount, s'.popCount) == (s.T, s.H, s.pushCount, s.popCount)
      && (s'.pushClaims, s'.popClaims) == (s.pushClaims, s.popClaims)
  {
  }

  /** Counters move exactly as the tickets of the moving thread do. */
  lemma NextTickets(s: State, m: Move)
    requires ValidMove(s, m) && TicketInv(s)
    ensures TicketInv(Next(s, m))
  {
    var t, l := m.thread, s.threads[m.thread];
    if l.Counting? {
      CountTickets(s, t);
    } else if l.Claiming? && !m.spurious && l.op.Producer() && s.tail == l.first.word {
      ClaimTailTickets(s, t);
    } else if l.Claiming? && !m.spurious && !l.op.Producer() && s.head == l.first.word {
      ClaimHeadTickets(s, t);
    } else {
      OtherTickets(s, m);
    }
  }

  lemma TileMore(claims: seq<Claim>, total: nat, c: Claim)
    requires Tile(claims, total) && c.start == total
    ensures Tile(claims + [c], total + c.n)
  {
    assert (claims + [c])[..|claims|] == claims;
  }

  lemma BalancedClaim(count: uint64, uncounted: nat, total: nat, n: nat)
    requires Balanced(count, uncounted, total)
    ensures Balanced(count, uncounted + n, total + n)
  {
  }

  lemma BalancedCount(count: uint64, uncounted: nat, total: nat, n: nat)
    requires Balanced(count, n + uncounted, total)
    ensures Balanced(Wrap64(count + n), uncounted, total)
  {
  }

  lemma {:induction false} TicketsAreConserved(states: seq<State>, moves: seq<Move>, i: nat)
    requires Run(states, moves) && i < |states|
    ensures TicketInv(states[i])
    decreases i
  {
    if i == 0 {
      var threads: nat :| states[0] == Initial(threads);
      InitialTickets(threads);
    } else {
      TicketsAreConserved(states, moves, i - 1);
      assert ValidMove(states[i - 1], moves[i - 1]) && states[i] == Next(states[i - 1], moves[i - 1]);
      NextTickets(states[i - 1], moves[i - 1]);
    }
  }

  /** What a thread has moved, or is moving, is a claim of its own. */
  predicate HoldsTicket(l: Local, t: nat, pushClaims: seq<Claim>, popClaims: seq<Claim>) {
    match l
    case Copying(op, _, base, n, _, _) => Claim(t, base, n) in (if op.Producer() then pushClaims else popClaims)
    case Counting(op, base, n, _) => Claim(t, base, n) in (if op.Producer() then pushClaims else popClaims)
    case Idle(Pushed(n, base)) => n == 0 || Claim(t, base, n) in pushClaims
    case Idle(Popped(out, base)) => out == [] || Claim(t, base, |out|) in popClaims
    case _ => true
  }

  ghost predicate TicketsHeld(s: State) {
    forall t :: 0 <= t < |s.threads| ==> HoldsTicket(s.threads[t], t, s.pushClaims, s.popClaims)
  }

  lemma NextTicketsHeld(s: State, m: Move)
    requires ValidMove(s, m) && Inv(s) && TicketsHeld(s)
    ensures TicketsHeld(Next(s, m))
  {
    var s' := Next(s, m);
    assert HoldsTicket(s.threads[m.thread], m.thread, s.pushClaims, s.popClaims);
    assert LocalInv(s.threads[m.thread], s.H, s.T, s.log);
    ClaimsOnlyGrow(s, m);
    forall t | 0 <= t < |s'.threads|
      ensures HoldsTicket(s'.threads[t], t, s'.pushClaims, s'.popClaims)
    {
      if t != m.thread {
        assert s'.threads[t] == s.threads[t];
      }
    }
  }

  lemma ClaimsOnlyGrow(s: State, m: Move)
    requires ValidMove(s, m)
    ensures s.pushClaims <= Next(s, m).pushClaims && s.popClaims <= Next(s, m).popClaims
    ensures |Next(s, m).threads| == |s.threads|
    ensures forall c :: c in s.pushClaims ==> c in Next(s, m).pushClaims
    ensures forall c :: c in s.popClaims ==> c in Next(s, m).popClaims
  {
  }

  /**
   In every run each finished push or pop is a claim of its thread. With the claims tiling the positions, no
   two calls ever moved the same position.
   */
  lemma {:induction false} EveryAnswerHasItsTicket(states: seq<State>, moves: seq<Move>, i: nat)
    requires FreshRun(states, moves) && i < |states|
    ensures TicketsHeld(states[i]) && TicketInv(states[i])
    decreases i
  {
    TicketsAreConserved(states, moves, i);
    IndicesStayWithinOneLap(states, moves);
    if i == 0 {
      var threads: nat :| states[0] == Initial(threads);
    } else {
      EveryAnswerHasItsTicket(states, moves, i - 1);
      assert ValidMove(states[i - 1], moves[i - 1]) && states[i] == Next(states[i - 1], moves[i - 1]);
      NextTicketsHeld(states[i - 1], moves[i - 1]);
    }
  }

  /** When no call is in progress, the statistics agree with the size the indices report. */
  lemma QuiescentCountersAgree(s: State)
    requires Inv(s) && TicketInv(s)
    requires forall t :: 0 <= t < |s.threads| ==> s.threads[t].Idle?
    ensures Wrap64(s.pushCount - s.popCount) == Sub(s.tail, s.head) == s.T - s.H == |Queue(s)|
  {
    SumZero(UncountedPush, s.threads);
    SumZero(UncountedPop, s.threads);
    SubExact(s.T, s.H);
    AllCounted(s.pushCount, s.T);
    AllCounted(s.popCount, s.H);
    Wrap64Difference(s.T, s.H);
  }

  lemma AllCounted(count: uint64, total: nat)
    requires Balanced(count, 0, total)
    ensures count == Wrap64(total)
  {
  }

  lemma Wrap64Difference(a: nat, b: nat)
    requires b <= a < b + LONG_WORD
    ensures Wrap64(Wrap64(a) - Wrap64(b)) == a - b
  {
    assert a == LONG_WORD * (a / LONG_WORD) + a % LONG_WORD;
    assert b == LONG_WORD * (b / LONG_WORD) + b % LONG_WORD;
  }
}
