/** How much contention costs: failed compare-exchanges are paid for by successful ones. */
module RingProgress {
  import opened Words
  import opened RingMachine
  import opened RingSafety
  import opened Sums

  /** What needs no assumption about ABA: words are the wrapped counters, snapshots the wrapped loads. */
  ghost predicate WordsInv(s: State) {
    && s.head == Wrap(s.H)
    && s.tail == Wrap(s.T)
    && (forall t :: 0 <= t < |s.threads| ==> SnapInv(s.threads[t]))
  }

  predicate SnapInv(l: Local) {
    && (l.Loaded? || l.Claiming? || l.Reading? ==> l.first.word == Wrap(l.first.pos))
    && (l.Reading? ==> l.op.Pop?)
  }

  lemma NextWords(s: State, m: Move)
    requires ValidMove(s, m) && WordsInv(s)
    ensures WordsInv(Next(s, m))
  {
    var l := s.threads[m.thread];
    assert SnapInv(l);
    if l.Claiming? {
      WrapAdd(s.T, l.n);
      WrapAdd(s.H, l.n);
      WrapSum(s.T, l.n);
      WrapSum(s.H, l.n);
    }
  }

  lemma WrapSum(a: nat, b: nat)
    ensures Add(Wrap(a), Wrap(b)) == Wrap(a + b)
  {
  }

  /** One when the thread will compare-exchange the tail with a value the tail no longer has. */
  function TailDebt(l: Local, T: nat): nat {
    if (l.Loaded? || l.Claiming?) && l.op.Producer() && l.first.pos != T then 1 else 0
  }

  function HeadDebt(l: Local, H: nat): nat {
    if (l.Loaded? || l.Reading? || l.Claiming?) && !l.op.Producer() && l.first.pos != H then 1 else 0
  }

  function StaleTails(ls: seq<Local>, T: nat): nat {
    Sum((l: Local) => TailDebt(l, T), ls)
  }

  function StaleHeads(ls: seq<Local>, H: nat): nat {
    Sum((l: Local) => HeadDebt(l, H), ls)
  }

  lemma DebtsUpdate(ls: seq<Local>, t: nat, l: Local, H: nat, T: nat)
    requires t < |ls|
    ensures StaleTails(ls[t := l], T) + TailDebt(ls[t], T) == StaleTails(ls, T) + TailDebt(l, T)
    ensures StaleHeads(ls[t := l], H) + HeadDebt(ls[t], H) == StaleHeads(ls, H) + HeadDebt(l, H)
  {
    SumUpdate((l: Local) => TailDebt(l, T), ls, t, l);
    SumUpdate((l: Local) => HeadDebt(l, H), ls, t, l);
  }

  /** At most everybody but t is in debt when t is not. */
  lemma DebtsBounded(ls: seq<Local>, t: nat, H: nat, T: nat)
    requires t < |ls|
    ensures TailDebt(ls[t], T) == 0 ==> StaleTails(ls, T) <= |ls| - 1
    ensures HeadDebt(ls[t], H) == 0 ==> StaleHeads(ls, H) <= |ls| - 1
  {
    if TailDebt(ls[t], T) == 0 {
      SumAllButOne((l: Local) => TailDebt(l, T), ls, t);
    }
    if HeadDebt(ls[t], H) == 0 {
      SumAllButOne((l: Local) => HeadDebt(l, H), ls, t);
    }
  }

  /** losses and outstanding debts are covered by what the wins of an index allow for. */
  predicate Covered(threads: nat, losses: nat, debts: nat, wins: nat)
    requires threads > 0
  {
    losses + debts <= (threads - 1) * wins
  }

  lemma WinPays(threads: nat, losses: nat, debts: nat, wins: nat, debts': nat)
    requires threads > 0 && Covered(threads, losses, debts, wins) && debts' <= threads - 1
    ensures Covered(threads, losses, debts', wins + 1)
  {
    assert (threads - 1) * (wins + 1) == (threads - 1) * wins + (threads - 1);
  }

  /** Every lost compare-exchange used up a snapshot that some success had invalidated. */
  ghost predicate Paid(s: State) {
    && |s.threads| > 0
    && Covered(|s.threads|, s.losses, StaleTails(s.threads, s.T), s.wins)
    && Covered(|s.threads|, s.popLosses, StaleHeads(s.threads, s.H), s.popWins)
  }

  lemma InitialPaid(threads: nat)
    requires threads > 0
    ensures WordsInv(Initial(threads)) && Paid(Initial(threads))
  {
    SumZero((l: Local) => TailDebt(l, 0), Initial(threads).threads);
    SumZero((l: Local) => HeadDebt(l, 0), Initial(threads).threads);
  }

  /** A success may invalidate everybody else's snapshot, and pays for that. */
  lemma ClaimTailPaid(s: State, t: nat)
    requires t < |s.threads| && s.threads[t].Claiming? && s.threads[t].op.Producer() && Paid(s)
    ensures Paid(ClaimTail(s, t))
  {
    var s' := ClaimTail(s, t);
    DebtsBounded(s'.threads, t, s'.H, s'.T);
    DebtsUpdate(s.threads, t, s'.threads[t], s.H, s.T);
    WinPays(|s.threads|, s.losses, StaleTails(s.threads, s.T), s.wins, StaleTails(s'.threads, s'.T));
  }

  lemma ClaimHeadPaid(s: State, t: nat)
    requires t < |s.threads| && s.threads[t].Claiming? && !s.threads[t].op.Producer() && Paid(s)
    ensures Paid(ClaimHead(s, t))
  {
    var s' := ClaimHead(s, t);
    DebtsBounded(s'.threads, t, s'.H, s'.T);
    DebtsUpdate(s.threads, t, s'.threads[t], s.H, s.T);
    WinPays(|s.threads|, s.popLosses, StaleHeads(s.threads, s.H), s.popWins, StaleHeads(s'.threads, s'.H));
  }

  lemma FailurePaid(s: State, m: Move)
    requires ValidMove(s, m) && s.threads[m.thread].Claiming? && WordsInv(s) && Paid(s)
    requires
      var l := s.threads[m.thread];
      m.spurious || (if l.op.Producer() then s.tail else s.head) != l.first.word
    ensures Paid(CompareExchange(s, m.thread, m.spurious))
  {
    var s' := CompareExchange(s, m.thread, m.spurious);
    assert SnapInv(s.threads[m.thread]);
    DebtsUpdate(s.threads, m.thread, s'.threads[m.thread], s.H, s.T);
  }

  /** Loads take up-to-date snapshots and decisions keep them, so no other step adds to the debt. */
  lemma OtherStepPaid(s: State, m: Move)
    requires ValidMove(s, m) && !s.threads[m.thread].Claiming? && WordsInv(s) && Paid(s)
    ensures Paid(Next(s, m))
  {
    assert SnapInv(s.threads[m.thread]);
    var s' := Next(s, m);
    DebtsUpdate(s.threads, m.thread, s'.threads[m.thread], s.H, s.T);
    assert s'.threads == s.threads[m.thread := s'.threads[m.thread]];
  }

  lemma NextPaid(s: State, m: Move)
    requires ValidMove(s, m) && WordsInv(s) && Paid(s)
    ensures Paid(Next(s, m)) && |Next(s, m).threads| == |s.threads|
  {
    var t, l := m.thread, s.threads[m.thread];
    if !l.Claiming? {
      OtherStepPaid(s, m);
    } else if m.spurious || (if l.op.Producer() then s.tail else s.head) != l.first.word {
      FailurePaid(s, m);
    } else if l.op.Producer() {
      ClaimTailPaid(s, t);
    } else {
      ClaimHeadPaid(s, t);
    }
  }

  /**
   In every run of P threads, with or without ABA, the non-spurious compare-exchange failures on an
   index number at most P - 1 times the successes on it: contention cannot stop the threads as a whole.
   */
  lemma {:induction false} LossesArePaidForByWins(states: seq<State>, moves: seq<Move>, i: nat)
    requires Run(states, moves) && i < |states| && |states[0].threads| > 0
    ensures WordsInv(states[i]) && Paid(states[i]) && |states[i].threads| == |states[0].threads|
    ensures
      var others := |states[0].threads| - 1;
      states[i].losses <= others * states[i].wins && states[i].popLosses <= others * states[i].popWins
    decreases i
  {
    if i == 0 {
      var threads: nat :| states[0] == Initial(threads);
      InitialPaid(threads);
    } else {
      LossesArePaidForByWins(states, moves, i - 1);
      assert ValidMove(states[i - 1], moves[i - 1]) && states[i] == Next(states[i - 1], moves[i - 1]);
      NextWords(states[i - 1], moves[i - 1]);
      NextPaid(states[i - 1], moves[i - 1]);
    }
  }

  // ---- what is counted ----

  /** How many of the first i moves finished a refused push or batch insertion. */
  function Refusals(states: seq<State>, moves: seq<Move>, i: nat): nat
    requires i <= |moves| < |states|
  {
    if i == 0 then 0 else Refusals(states, moves, i - 1) + (if FinishesRefusal(states[i - 1], moves[i - 1]) then 1 else 0)
  }

  predicate FinishesRefusal(s: State, m: Move) {
    m.thread < |s.threads| && s.threads[m.thread].Failing?
  }

  /** push_fail_count counts the refusals, modulo its width. */
  lemma {:induction false} RefusalsAreCounted(states: seq<State>, moves: seq<Move>, i: nat)
    requires Run(states, moves) && i <= |moves|
    ensures states[i].pushFailCount == Wrap64(Refusals(states, moves, i))
    decreases i
  {
    if i == 0 {
      assert states[0].pushFailCount == 0;
    } else {
      RefusalsAreCounted(states, moves, i - 1);
      RefusalCountedAt(states, moves, i - 1);
      Wrap64Add(Refusals(states, moves, i - 1), if FinishesRefusal(states[i - 1], moves[i - 1]) then 1 else 0);
    }
  }

  lemma RefusalCountedAt(states: seq<State>, moves: seq<Move>, i: nat)
    requires Run(states, moves) && i < |moves|
    ensures states[i + 1].pushFailCount ==
            Wrap64(states[i].pushFailCount + if FinishesRefusal(states[i], moves[i]) then 1 else 0)
  {
    assert ValidMove(states[i], moves[i]) && states[i + 1] == Next(states[i], moves[i]);
    RefusalCounted(states[i], moves[i]);
  }

  lemma RefusalCounted(s: State, m: Move)
    requires ValidMove(s, m)
    ensures Next(s, m).pushFailCount ==
            Wrap64(s.pushFailCount + if FinishesRefusal(s, m) then 1 else 0)
  {
  }


  /** The counts the bound speaks of: each real compare-exchange is either a win or a loss of its index. */
  lemma EveryExchangeIsCounted(s: State, m: Move)
    requires ValidMove(s, m) && Inv(s) && NoAba(s, m)
    ensures
      var s', l := Next(s, m), s.threads[m.thread];
      var moved := l.Claiming? && l.first.pos != if l.op.Producer() then s.T else s.H;
      && s'.wins == s.wins + (if Succeeds(s, m) && l.op.Producer() then 1 else 0)
      && s'.popWins == s.popWins + (if Succeeds(s, m) && !l.op.Producer() then 1 else 0)
      && s'.losses == s.losses + (if moved && l.op.Producer() then 1 else 0)
      && s'.popLosses == s.popLosses + (if moved && !l.op.Producer() then 1 else 0)
  {
    if s.threads[m.thread].Claiming? {
      SuccessMeansUnmoved(s, m);
    }
  }

  /** The most items an operation can move. */
  function Most(op: Op): nat {
    match op
    case Push(_) => 1
    case PushBatch(items) => |items|
    case Pop => 1
    case PopBatch(count) => count
    case _ => 0
  }

  /** How many more steps a thread needs at most to finish its call, if it loses no exchange. */
  function StepsLeft(l: Local): nat {
    match l
    case Idle(_) => 0
    case Start(op) => Most(op) + 6
    case Loaded(op, _) => Most(op) + 5
    case Reading(op, _) => Most(op) + 4
    case Claiming(_, _, n, _) => n + 3
    case Copying(_, _, _, n, done, _) => (if done < n then n - done else 0) + 2
    case Counting(_, _, _, _) => 1
    case Failing(_) => 1
  }

  /**
   Every step brings a call closer to its end, whatever the other threads do; only a lost exchange of a
   single push or pop sends it back to its start. A batch ends at once when it loses.
   */
  lemma OnlyLostExchangesDelay(s: State, m: Move)
    requires ValidMove(s, m) && Inv(s) && NoAba(s, m) && !s.threads[m.thread].Idle?
    ensures
      var l, l' := s.threads[m.thread], Next(s, m).threads[m.thread];
      if l.Claiming? && (l.op.Push? || l.op.Pop?) && !Succeeds(s, m) then l' == Start(l.op)
      else StepsLeft(l') < StepsLeft(l)
  {
    assert LocalInv(s.threads[m.thread], s.H, s.T, s.log);
    if s.threads[m.thread].Claiming? {
      SuccessMeansUnmoved(s, m);
    }
  }

  /** A call begins with its first load, unless the entry checks answer it at once. */
  lemma CallsStart(s: State, m: Move)
    requires ValidMove(s, m) && s.threads[m.thread].Idle?
    ensures
      var l' := Next(s, m).threads[m.thread];
      if m.op.Entered() then l' == Start(m.op) else l'.Idle?
  {
  }
}
