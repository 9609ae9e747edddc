/** Round-robin dispatch by a wrapping 32-bit counter, and by a counter kept modulo the number of workers. */
module LoadBalance {
  import opened Words

  /** How many of the first n numbers select index t of k. */
  function PlainLoad(k: nat, t: nat, n: nat): nat
    requires k > 0
  {
    if n == 0 then 0 else PlainLoad(k, t, n - 1) + (if (n - 1) % k == t then 1 else 0)
  }

  /** How many of the first n dispatches of the reactor select thread t. */
  function ReactorLoad(k: nat, t: nat, n: nat): nat
    requires k > 0
  {
    if n == 0 then 0 else ReactorLoad(k, t, n - 1) + (if Wrap(n - 1) % k == t then 1 else 0)
  }

  lemma {:induction false} PlainLoadExact(k: nat, t: nat, n: nat)
    requires t < k
    ensures PlainLoad(k, t, n) == n / k + (if t < n % k then 1 else 0)
  {
    if n == 0 {
      QuotientUnique(0, k, 0, 0);
    } else {
      PlainLoadExact(k, t, n - 1);
      NextQuotient(n - 1, k);
    }
  }

  /** Quotient and remainder of successive numbers. */
  lemma NextQuotient(n: nat, k: nat)
    requires k > 0
    ensures
      if n % k + 1 < k then (n + 1) / k == n / k && (n + 1) % k == n % k + 1
      else (n + 1) / k == n / k + 1 && (n + 1) % k == 0
  {
    var q, r := n / k, n % k;
    assert n == k * q + r;
    if r + 1 < k {
      QuotientUnique(n + 1, k, q, r + 1);
    } else {
      assert n + 1 == k * (q + 1);
      QuotientUnique(n + 1, k, q + 1, 0);
    }
  }

  /** The counter's full laps all look alike. */
  lemma {:induction false} ReactorLoadByLaps(k: nat, t: nat, n: nat)
    requires t < k
    ensures ReactorLoad(k, t, n) == n / WORD * PlainLoad(k, t, WORD) + PlainLoad(k, t, n % WORD)
  {
    if n == 0 {
    } else {
      ReactorLoadByLaps(k, t, n - 1);
      var laps, rest := (n - 1) / WORD, (n - 1) % WORD;
      var lap := PlainLoad(k, t, WORD);
      NextQuotient(n - 1, WORD);
      if rest + 1 == WORD {
        assert lap == PlainLoad(k, t, rest) + (if rest % k == t then 1 else 0);
        OneMoreLap(laps, lap);
      }
    }
  }

  lemma OneMoreLap(laps: nat, lap: nat)
    ensures (laps + 1) * lap == laps * lap + lap
  {
  }

  /** After n dispatches two reactor threads differ by at most one per completed lap of the counter, plus one. */
  lemma ReactorLoadsStayClose(k: nat, t: nat, u: nat, n: nat)
    requires t < k && u < k
    ensures ReactorLoad(k, t, n) <= ReactorLoad(k, u, n) + 1 + n / WORD
  {
    var laps := n / WORD;
    ReactorLoadByLaps(k, t, n);
    ReactorLoadByLaps(k, u, n);
    PlainLoadExact(k, t, WORD);
    PlainLoadExact(k, u, WORD);
    PlainLoadExact(k, t, n % WORD);
    PlainLoadExact(k, u, n % WORD);
    var a, b := PlainLoad(k, t, WORD), PlainLoad(k, u, WORD);
    AtMostOneMoreEach(laps, a, b);
  }

  lemma AtMostOneMoreEach(laps: nat, a: nat, b: nat)
    requires a <= b + 1
    ensures laps * a <= laps * b + laps
  {
    if a <= b {
      assert laps * b == laps * a + laps * (b - a);
    } else {
      assert laps * a == laps * b + laps;
    }
  }

  ghost predicate BalancedForever(k: nat)
    requires k > 0
  {
    forall t: nat, u: nat, n: nat :: t < k && u < k ==> ReactorLoad(k, t, n) <= ReactorLoad(k, u, n) + 1
  }

  /** The reactor's loads stay within one of each other forever exactly when the thread count divides 2^32. */
  lemma BalancedForeverIff(k: nat)
    requires k > 0
    ensures BalancedForever(k) <==> WORD % k == 0
  {
    if WORD % k == 0 {
      forall t: nat, u: nat, n: nat | t < k && u < k
        ensures ReactorLoad(k, t, n) <= ReactorLoad(k, u, n) + 1
      {
        ReactorLoadByLaps(k, t, n);
        ReactorLoadByLaps(k, u, n);
        PlainLoadExact(k, t, WORD);
        PlainLoadExact(k, u, WORD);
        PlainLoadExact(k, t, n % WORD);
        PlainLoadExact(k, u, n % WORD);
      }
    } else {
      var n := 2 * WORD;
      ReactorLoadByLaps(k, 0, n);
      ReactorLoadByLaps(k, k - 1, n);
      PlainLoadExact(k, 0, WORD);
      PlainLoadExact(k, k - 1, WORD);
      assert n / WORD == 2 && n % WORD == 0;
      assert ReactorLoad(k, 0, n) == ReactorLoad(k, k - 1, n) + 2;
    }
  }

  /** The reactor's dispatch counter. */
  class ReactorDispatcher {
    var nextThread: uint32
    const threadCount: nat
    ghost var dispatched: nat

    ghost predicate Valid()
      reads this
    {
      threadCount > 0 && nextThread == Wrap(dispatched)
    }

    constructor (threads: nat)
      requires threads > 0
      ensures Valid() && threadCount == threads && dispatched == 0
    {
      nextThread, threadCount, dispatched := 0, threads, 0;
    }

    method Select() returns (index: nat)
      requires Valid()
      modifies this
      ensures Valid() && dispatched == old(dispatched) + 1
      ensures index < threadCount
      ensures forall t :: 0 <= t < threadCount ==>
                ReactorLoad(threadCount, t, dispatched) ==
                ReactorLoad(threadCount, t, old(dispatched)) + (if t == index then 1 else 0)
    {
      index := nextThread % threadCount;
      WrapAdd(dispatched, 1);
      nextThread := Add(nextThread, 1);
      dispatched := dispatched + 1;
    }
  }

  /** The hybrid server's worker counter, which never reaches a wrap. */
  class WorkerDispatcher {
    var nextWorker: nat
    const numWorkers: nat
    ghost var dispatched: nat

    ghost predicate Valid()
      reads this
    {
      numWorkers > 0 && nextWorker == dispatched % numWorkers
    }

    constructor (workers: nat)
      requires workers > 0
      ensures Valid() && numWorkers == workers && dispatched == 0
    {
      nextWorker, numWorkers, dispatched := 0, workers, 0;
    }

    method Select() returns (index: nat)
      requires Valid()
      modifies this
      ensures Valid() && dispatched == old(dispatched) + 1
      ensures index < numWorkers
      ensures forall t :: 0 <= t < numWorkers ==>
                PlainLoad(numWorkers, t, dispatched) ==
                PlainLoad(numWorkers, t, old(dispatched)) + (if t == index then 1 else 0)
    {
      index := nextWorker;
      nextWorker := (nextWorker + 1) % numWorkers;
      NextRemainder(dispatched, numWorkers);
      dispatched := dispatched + 1;
    }
  }

  lemma NextRemainder(n: nat, k: nat)
    requires k > 0
    ensures (n % k + 1) % k == (n + 1) % k
  {
    NextQuotient(n, k);
    if n % k + 1 < k {
      QuotientUnique(n % k + 1, k, 0, n % k + 1);
    } else {
      QuotientUnique(k, k, 1, 0);
    }
  }

  /** The hybrid server's workers are selected evenly, forever. */
  lemma WorkerLoadsStayWithinOne(k: nat, t: nat, u: nat, n: nat)
    requires t < k && u < k
    ensures PlainLoad(k, t, n) <= PlainLoad(k, u, n) + 1
  {
    PlainLoadExact(k, t, n);
    PlainLoadExact(k, u, n);
  }
}
