/** The ring queue of one thread: an array of slots addressed by masked 32-bit indices. */
module RingQueue {
  import opened Words
  import opened RingFifo

  /** The caller's `int *item`. */
  class IntCell {
    var value: int

    constructor () {
      value := 0;
    }
  }

  /** The content of the slot that serves position p. */
  ghost function At(slots: seq<int>, p: nat): int
    requires |slots| == RING_QUEUE_SIZE
  {
    slots[p % RING_QUEUE_SIZE]
  }

  /** The n items held at positions from, from+1, ... of the ring. */
  ghost function Window(slots: seq<int>, from: nat, n: nat): (w: seq<int>)
    requires |slots| == RING_QUEUE_SIZE
    ensures |w| == n
  {
    seq(n, i requires 0 <= i < n => At(slots, from + i))
  }

  /** A write to n free positions from `base` on: those slots change, the rest of the lap does not. */
  ghost predicate Written(slots: seq<int>, slots': seq<int>, base: nat, items: seq<int>)
    requires |slots| == |slots'| == RING_QUEUE_SIZE
  {
    && (forall p :: base <= p < base + |items| ==> At(slots', p) == items[p - base])
    && (forall p :: base + |items| <= p < base + RING_QUEUE_SIZE ==> At(slots', p) == At(slots, p))
  }

  /** Writing the free positions that follow the window appends to it and disturbs no live slot. */
  lemma WindowAppend(slots: seq<int>, slots': seq<int>, from: nat, n: nat, items: seq<int>)
    requires |slots| == |slots'| == RING_QUEUE_SIZE && n + |items| <= RING_QUEUE_SIZE
    requires Written(slots, slots', from + n, items)
    ensures Window(slots', from, n + |items|) == Window(slots, from, n) + items
  {
    var w := Window(slots', from, n + |items|);
    forall i | 0 <= i < n + |items|
      ensures w[i] == (Window(slots, from, n) + items)[i]
    {
      assert w[i] == At(slots', from + i);
      if i < n {
        SameSlotNextLap(slots, from + i);
        SameSlotNextLap(slots', from + i);
        assert At(slots', from + i + RING_QUEUE_SIZE) == At(slots, from + i + RING_QUEUE_SIZE);
      }
    }
  }

  /** Advancing the front of the window drops its first items. */
  lemma WindowSplit(slots: seq<int>, from: nat, n: nat, k: nat)
    requires |slots| == RING_QUEUE_SIZE && k <= n
    ensures Window(slots, from, n) == Window(slots, from, k) + Window(slots, from + k, n - k)
  {
  }

  lemma WindowTail(slots: seq<int>, from: nat, n: nat)
    requires |slots| == RING_QUEUE_SIZE && n > 0
    ensures Window(slots, from + 1, n - 1) == Window(slots, from, n)[1..]
  {
  }

  lemma SameSlotNextLap(slots: seq<int>, p: nat)
    requires |slots| == RING_QUEUE_SIZE
    ensures At(slots, p + RING_QUEUE_SIZE) == At(slots, p)
  {
  }

  lemma OneWritten(slots: seq<int>, base: nat, item: int)
    requires |slots| == RING_QUEUE_SIZE
    ensures Written(slots, slots[base % RING_QUEUE_SIZE := item], base, [item])
  {
    forall p | base + 1 <= p < base + RING_QUEUE_SIZE
      ensures p % RING_QUEUE_SIZE != base % RING_QUEUE_SIZE
    {
      SlotsDiffer(base, p);
    }
  }

  class RingQueue {
    var head: uint32
    var tail: uint32
    const buffer: array<int>
    var pushCount: uint64
    var popCount: uint64
    var pushFailCount: uint64
    /** Items ever inserted and ever removed: the indices before they wrap. */
    ghost var pushed: nat
    ghost var popped: nat

    ghost predicate Valid()
      reads this
    {
      && buffer.Length == RING_QUEUE_SIZE
      && popped <= pushed <= popped + RING_QUEUE_SIZE
      && head == Wrap(popped)
      && tail == Wrap(pushed)
      && pushCount == Wrap64(pushed)
      && popCount == Wrap64(popped)
    }

    ghost function Contents(): (q: seq<int>)
      requires Valid()
      reads this, buffer
      ensures |q| == pushed - popped
    {
      Window(buffer[..], popped, pushed - popped)
    }

    constructor Init()
      ensures Valid() && fresh(buffer)
      ensures Contents() == [] && pushed == popped == 0 && pushFailCount == 0
      ensures forall i :: 0 <= i < RING_QUEUE_SIZE ==> buffer[i] == 0
    {
      head, tail := 0, 0;
      pushCount, popCount, pushFailCount := 0, 0, 0;
      pushed, popped := 0, 0;
      buffer := new int[RING_QUEUE_SIZE](_ => 0);
    }

    method Empty() returns (empty: bool)
      requires Valid()
      ensures empty <==> Contents() == []
    {
      SubExact(pushed, popped);
      empty := head == tail;
    }

    method Full() returns (full: bool)
      requires Valid()
      ensures full <==> |Contents()| == RING_QUEUE_SIZE
    {
      SubExact(pushed, popped);
      full := Sub(tail, head) >= RING_QUEUE_SIZE;
    }

    method Size() returns (size: uint32)
      requires Valid()
      ensures size == |Contents()|
    {
      SubExact(pushed, popped);
      size := Sub(tail, head);
    }

    /** `spurious` is how often the weak compare-exchange fails although the index is unchanged. */
    method Push(item: int, spurious: nat) returns (ok: bool)
      requires Valid()
      modifies this, buffer
      ensures Valid()
      ensures ok <==> old(|Contents()|) < RING_QUEUE_SIZE
      ensures Contents() == Put(old(Contents()), item)
      ensures popped == old(popped) && pushed == old(pushed) + (if ok then 1 else 0)
      ensures pushFailCount == if ok then old(pushFailCount) else Wrap64(old(pushFailCount) + 1)
    {
      var failures := spurious;
      while true
        invariant unchanged(this) && unchanged(buffer)
        decreases failures
      {
        var t := tail;
        var h := head;
        SubExact(pushed, popped);
        if Sub(t, h) >= RING_QUEUE_SIZE {
          pushFailCount := Wrap64(pushFailCount + 1);
          return false;
        }
        if tail == t && failures == 0 {
          tail := Add(t, 1);
          WrapAdd(pushed, 1);
          Wrap64Add(pushed, 1);
          Store(t, item, popped, pushed - popped);
          pushed := pushed + 1;
          pushCount := Wrap64(pushCount + 1);
          return true;
        }
        failures := failures - 1;
      }
    }

    /** The item is copied out before the compare-exchange, as in the retry loop of the source. */
    method Pop(item: IntCell?, spurious: nat) returns (ok: bool)
      requires Valid()
      modifies this, item
      ensures Valid() && unchanged(buffer)
      ensures ok <==> item != null && old(Contents()) != []
      ensures Contents() == if ok then old(Contents())[1..] else old(Contents())
      ensures item != null ==> item.value == if ok then old(Contents())[0] else old(item.value)
      ensures pushed == old(pushed) && popped == old(popped) + (if ok then 1 else 0)
      ensures pushFailCount == old(pushFailCount)
    {
      if item == null {
        return false;
      }
      var failures := spurious;
      ghost var q := Contents();
      while true
        invariant unchanged(this)
        invariant q == [] ==> item.value == old(item.value)
        decreases failures
      {
        var h := head;
        var t := tail;
        SubExact(pushed, popped);
        if h == t {
          return false;
        }
        item.value := Load(h, popped, pushed - popped);
        if head == h && failures == 0 {
          RemoveFront(h);
          return true;
        }
        failures := failures - 1;
      }
    }

    /** A successful compare-exchange of the head, and the count that follows it. */
    method RemoveFront(h: uint32)
      requires Valid() && Contents() != [] && h == head
      modifies this`head, this`popped, this`popCount
      ensures Valid() && Contents() == old(Contents())[1..] && popped == old(popped) + 1
    {
      head := Add(h, 1);
      WrapAdd(popped, 1);
      Wrap64Add(popped, 1);
      WindowTail(buffer[..], popped, pushed - popped);
      popped := popped + 1;
      popCount := Wrap64(popCount + 1);
    }

    /** The store after the claim: the slot of the position that follows the window from, ..., from+n-1. */
    method Store(index: uint32, item: int, ghost from: nat, ghost n: nat)
      requires buffer.Length == RING_QUEUE_SIZE && n < RING_QUEUE_SIZE
      requires index == Wrap(from + n)
      modifies buffer
      ensures Window(buffer[..], from, n + 1) == old(Window(buffer[..], from, n)) + [item]
    {
      ghost var slots := buffer[..];
      SlotOfPosition(from + n);
      buffer[Slot(index)] := item;
      assert buffer[..] == slots[(from + n) % RING_QUEUE_SIZE := item];
      OneWritten(slots, from + n, item);
      WindowAppend(slots, buffer[..], from, n, [item]);
    }

    /** The read of the slot at the front of the window. */
    method Load(index: uint32, ghost from: nat, ghost n: nat) returns (item: int)
      requires buffer.Length == RING_QUEUE_SIZE && 0 < n
      requires index == Wrap(from)
      ensures item == Window(buffer[..], from, n)[0]
    {
      SlotOfPosition(from);
      item := buffer[Slot(index)];
      assert Window(buffer[..], from, n)[0] == At(buffer[..], from);
    }

    /** The batch store after the claim. */
    method StoreBatch(items: array<int>, index: uint32, count: nat, ghost from: nat, ghost n: nat)
      requires buffer.Length == RING_QUEUE_SIZE && items != buffer
      requires n + count <= RING_QUEUE_SIZE && count <= items.Length
      requires index == Wrap(from + n)
      modifies buffer
      ensures Window(buffer[..], from, n + count) == old(Window(buffer[..], from, n)) + items[..count]
    {
      ghost var slots := buffer[..];
      SlotOfPosition(from + n);
      CopyIn(items, Slot(index), count, from + n);
      WindowAppend(slots, buffer[..], from, n, items[..count]);
    }

    /** memcpy of one or two chunks of `items` into the buffer, at the slots of positions base, base+1, ... */
    method CopyIn(items: array<int>, index: nat, n: nat, ghost base: nat)
      requires buffer.Length == RING_QUEUE_SIZE && items != buffer
      requires index == base % RING_QUEUE_SIZE && n <= RING_QUEUE_SIZE && n <= items.Length
      modifies buffer
      ensures Written(old(buffer[..]), buffer[..], base, items[..n])
    {
      var firstChunk := RING_QUEUE_SIZE - index;
      if n <= firstChunk {
        forall i | 0 <= i < n {
          buffer[index + i] := items[i];
        }
      } else {
        forall i | 0 <= i < firstChunk {
          buffer[index + i] := items[i];
        }
        forall i | 0 <= i < n - firstChunk {
          buffer[i] := items[firstChunk + i];
        }
      }
      forall p | base <= p < base + RING_QUEUE_SIZE
        ensures At(buffer[..], p) == if p < base + n then items[p - base] else old(At(buffer[..], p))
      {
        LapSlot(base, p);
      }
    }

    /** memcpy of one or two chunks of the buffer into `items`. */
    method CopyOut(items: array<int>, index: nat, n: nat, ghost base: nat)
      requires buffer.Length == RING_QUEUE_SIZE && items != buffer
      requires index == base % RING_QUEUE_SIZE && n <= RING_QUEUE_SIZE && n <= items.Length
      modifies items
      ensures items[..n] == Window(buffer[..], base, n)
      ensures items[n..] == old(items[n..])
    {
      var firstChunk := RING_QUEUE_SIZE - index;
      if n <= firstChunk {
        forall i | 0 <= i < n {
          items[i] := buffer[index + i];
        }
      } else {
        forall i | 0 <= i < firstChunk {
          items[i] := buffer[index + i];
        }
        forall i | 0 <= i < n - firstChunk {
          items[firstChunk + i] := buffer[i];
        }
      }
      forall i | 0 <= i < n
        ensures items[i] == At(buffer[..], base + i)
      {
        LapSlot(base, base + i);
      }
    }

    method PushBatch(items: array?<int>, count: uint32, spurious: bool) returns (n: uint32)
      requires Valid()
      requires items != null ==> items != buffer && count <= items.Length
      modifies this, buffer
      ensures Valid()
      ensures n == if items == null || spurious then 0 else Min(count, RING_QUEUE_SIZE - old(|Contents()|))
      ensures n == 0 ==> Contents() == old(Contents())
      ensures n > 0 ==> Contents() == PutBatch(old(Contents()), items[..count])
      ensures popped == old(popped) && pushed == old(pushed) + n
      ensures pushFailCount ==
              if items != null && count != 0 && old(|Contents()|) == RING_QUEUE_SIZE
              then Wrap64(old(pushFailCount) + 1) else old(pushFailCount)
    {
      if items == null || count == 0 {
        return 0;
      }
      var t := tail;
      var h := head;
      FreeSpaceExact(pushed, popped);
      var freeSpace := Sub(RING_QUEUE_SIZE, Sub(t, h));
      var actual := if count < freeSpace then count else freeSpace;
      if actual == 0 {
        pushFailCount := Wrap64(pushFailCount + 1);
        return 0;
      }
      var newTail := Add(t, actual);
      if tail != t || spurious {
        return 0;
      }
      tail := newTail;
      WrapAdd(pushed, actual);
      Wrap64Add(pushed, actual);
      StoreBatch(items, t, actual, popped, pushed - popped);
      pushed := pushed + actual;
      pushCount := Wrap64(pushCount + actual);
      assert items[..actual] == items[..count][..actual];
      return actual;
    }

    method PopBatch(items: array?<int>, count: uint32, spurious: bool) returns (n: uint32)
      requires Valid()
      requires items != null ==> items != buffer && count <= items.Length
      modifies this, items
      ensures Valid() && unchanged(buffer)
      ensures n == if items == null || spurious then 0 else Min(count, old(|Contents()|))
      ensures n == 0 ==> Contents() == old(Contents())
      ensures n > 0 ==> Taken(items[..n], Contents()) == TakeBatch(old(Contents()), count)
      ensures items != null ==> items[n..] == old(items[n..])
      ensures pushed == old(pushed) && popped == old(popped) + n
      ensures pushFailCount == old(pushFailCount)
    {
      if items == null || count == 0 {
        return 0;
      }
      var h := head;
      var t := tail;
      SubExact(pushed, popped);
      var queueSize := Sub(t, h);
      if queueSize == 0 {
        return 0;
      }
      var actual := if count < queueSize then count else queueSize;
      var newHead := Add(h, actual);
      if head != h || spurious {
        return 0;
      }
      head := newHead;
      WrapAdd(popped, actual);
      Wrap64Add(popped, actual);
      WindowSplit(buffer[..], popped, pushed - popped, actual);
      SlotOfPosition(popped);
      CopyOut(items, Slot(h), actual, popped);
      popped := popped + actual;
      popCount := Wrap64(popCount + actual);
      return actual;
    }
  }

  /** The slots of one lap, as the two chunks address them. */
  lemma LapSlot(base: nat, p: nat)
    requires base <= p < base + RING_QUEUE_SIZE
    ensures
      var index := base % RING_QUEUE_SIZE;
      p % RING_QUEUE_SIZE == if p - base < RING_QUEUE_SIZE - index then index + (p - base)
                             else p - base - (RING_QUEUE_SIZE - index)
  {
  }
}
