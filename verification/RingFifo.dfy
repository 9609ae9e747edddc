/** The bounded first-in first-out queue the ring is meant to be: a plain sequence. */
module RingFifo {
  import opened Words

  /** Result of removing items: what came out and what stays. */
  datatype Taken = Taken(items: seq<int>, rest: seq<int>)

  function Put(q: seq<int>, item: int): seq<int> {
    if |q| < RING_QUEUE_SIZE then q + [item] else q
  }

  function PutAll(q: seq<int>, items: seq<int>): seq<int>
    decreases items
  {
    if items == [] then q else PutAll(Put(q, items[0]), items[1..])
  }

  function Take(q: seq<int>, n: nat): Taken {
    if n == 0 || q == [] then Taken([], q)
    else
      var later := Take(q[1..], n - 1);
      Taken([q[0]] + later.items, later.rest)
  }

  /** What one batch insertion leaves behind. */
  function PutBatch(q: seq<int>, items: seq<int>): seq<int>
    requires |q| <= RING_QUEUE_SIZE
  {
    q + items[..Min(|items|, RING_QUEUE_SIZE - |q|)]
  }

  function TakeBatch(q: seq<int>, n: nat): Taken {
    Taken(q[..Min(n, |q|)], q[Min(n, |q|)..])
  }

  /** A batch insertion is the same as inserting its items one at a time, whether or not they all fit. */
  lemma {:induction false} PutBatchIsIteration(q: seq<int>, items: seq<int>)
    requires |q| <= RING_QUEUE_SIZE
    ensures PutBatch(q, items) == PutAll(q, items)
    decreases items
  {
    if items == [] {
    } else {
      PutBatchIsIteration(Put(q, items[0]), items[1..]);
      if |q| < RING_QUEUE_SIZE {
        var k := Min(|items|, RING_QUEUE_SIZE - |q|);
        assert items[..k] == [items[0]] + items[1..][..k - 1];
      }
    }
  }

  /** A batch removal is the same as removing one item at a time, stopping when the queue is empty. */
  lemma {:induction false} TakeBatchIsIteration(q: seq<int>, n: nat)
    ensures TakeBatch(q, n) == Take(q, n)
    decreases n
  {
    if n == 0 || q == [] {
    } else {
      TakeBatchIsIteration(q[1..], n - 1);
      TakeBatchUnfolds(q, n);
    }
  }

  lemma TakeBatchUnfolds(q: seq<int>, n: nat)
    requires n > 0 && q != []
    ensures TakeBatch(q, n).items == [q[0]] + TakeBatch(q[1..], n - 1).items
    ensures TakeBatch(q, n).rest == TakeBatch(q[1..], n - 1).rest
  {
  }

  /** What a batch insertion accepted comes out again, in order, once the older items are gone. */
  lemma BatchRoundTrip(q: seq<int>, items: seq<int>)
    requires |q| <= RING_QUEUE_SIZE
    ensures
      var full := PutBatch(q, items);
      var accepted := Min(|items|, RING_QUEUE_SIZE - |q|);
      && TakeBatch(full, |q|) == Taken(q, items[..accepted])
      && TakeBatch(TakeBatch(full, |q|).rest, |items|) == Taken(items[..accepted], [])
  {
    var accepted := Min(|items|, RING_QUEUE_SIZE - |q|);
    var full := PutBatch(q, items);
    assert full[..|q|] == q;
    assert full[|q|..] == items[..accepted];
  }
}
