/** Fixed-width unsigned arithmetic and the index masking used by the ring queue. */
module Words {

  const WORD := 0x1_0000_0000
  const LONG_WORD := 0x1_0000_0000_0000_0000
  const RING_QUEUE_SIZE := 65536
  const RING_QUEUE_MASK := RING_QUEUE_SIZE - 1

  type uint32 = x: nat | x < WORD
  type uint64 = x: nat | x < LONG_WORD

  /** The 32-bit word an unbounded counter value is stored as. */
  function Wrap(x: int): uint32 {
    x % WORD
  }

  function Wrap64(x: int): uint64 {
    x % LONG_WORD
  }

  /** C unsigned addition and subtraction. */
  function Add(a: uint32, b: uint32): uint32 {
    Wrap(a + b)
  }

  function Sub(a: uint32, b: uint32): uint32 {
    Wrap(a - b)
  }

  function Min(a: nat, b: nat): nat {
    if a < b then a else b
  }

  function Pow2(k: nat): (r: nat)
    ensures r > 0
  {
    if k == 0 then 1 else 2 * Pow2(k - 1)
  }

  /** Bitwise conjunction, one bit at a time. */
  function And(a: nat, b: nat): nat {
    if a == 0 || b == 0 then 0
    else (if a % 2 == 1 && b % 2 == 1 then 1 else 0) + 2 * And(a / 2, b / 2)
  }

  lemma HalveMod(x: nat, m: nat)
    requires m > 0
    ensures x % (2 * m) == x % 2 + 2 * (x / 2 % m)
  {
    var h := x / 2;
    var q, r := h / m, h % m;
    assert h == m * q + r;
    assert x == (2 * m) * q + (2 * r + x % 2);
    QuotientUnique(x, 2 * m, q, 2 * r + x % 2);
  }

  lemma QuotientUnique(x: nat, m: nat, q: nat, r: nat)
    requires m > 0 && x == m * q + r && r < m
    ensures x % m == r && x / m == q
  {
    var q' := x / m;
    assert x == m * q' + x % m;
    if q > q' {
      NextMultiple(m, q', q);
    } else if q < q' {
      NextMultiple(m, q, q');
    }
  }

  lemma NextMultiple(m: nat, low: nat, high: nat)
    requires low < high
    ensures m * high >= m * low + m
  {
    assert m * high == m * low + m * (high - low);
    assert m * (high - low) == m * (high - low - 1) + m;
  }

  /** Masking with 2^k - 1 keeps exactly the remainder modulo 2^k. */
  lemma {:induction false} MaskIsRemainder(x: nat, k: nat)
    ensures And(x, Pow2(k) - 1) == x % Pow2(k)
  {
    if k == 0 {
    } else if x == 0 {
    } else {
      var m := Pow2(k - 1);
      MaskIsRemainder(x / 2, k - 1);
      assert (Pow2(k) - 1) / 2 == m - 1 && (Pow2(k) - 1) % 2 == 1;
      HalveMod(x, m);
    }
  }

  lemma RingMask(index: nat)
    ensures And(index, RING_QUEUE_MASK) == index % RING_QUEUE_SIZE
  {
    assert Pow2(4) == 16;
    assert Pow2(8) == 256;
    assert Pow2(12) == 4096;
    assert Pow2(16) == RING_QUEUE_SIZE;
    MaskIsRemainder(index, 16);
  }

  /** The slot selected by `index & RING_QUEUE_MASK`. */
  function Slot(index: uint32): (slot: nat)
    ensures slot < RING_QUEUE_SIZE
    ensures slot == index % RING_QUEUE_SIZE
  {
    RingMask(index);
    And(index, RING_QUEUE_MASK)
  }

  /** However often the 32-bit index has wrapped, the slot is the unbounded position modulo the size. */
  lemma SlotOfPosition(p: nat)
    ensures Slot(Wrap(p)) == p % RING_QUEUE_SIZE
  {
    var laps, index := p / WORD, p % WORD;
    var rounds, slot := index / RING_QUEUE_SIZE, index % RING_QUEUE_SIZE;
    assert p == RING_QUEUE_SIZE * (65536 * laps + rounds) + slot;
    QuotientUnique(p, RING_QUEUE_SIZE, 65536 * laps + rounds, slot);
  }

  /** Where element i of a batch goes: up to the end of the buffer first, then from its start. */
  function ChunkSlot(index: nat, i: nat): int
    requires index < RING_QUEUE_SIZE
  {
    var firstChunk := RING_QUEUE_SIZE - index;
    if i < firstChunk then index + i else i - firstChunk
  }

  /** The two-chunk copy visits the slots of the consecutive positions, without overrunning the buffer. */
  lemma ChunkSlotOfPosition(p: nat, i: nat)
    requires i < RING_QUEUE_SIZE
    ensures ChunkSlot(Slot(Wrap(p)), i) == (p + i) % RING_QUEUE_SIZE
  {
    SlotOfPosition(p);
    assert p == RING_QUEUE_SIZE * (p / RING_QUEUE_SIZE) + p % RING_QUEUE_SIZE;
  }

  /** Distinct positions less than one lap apart live in distinct slots. */
  lemma SlotsDiffer(p: nat, q: nat)
    requires p < q < p + RING_QUEUE_SIZE
    ensures p % RING_QUEUE_SIZE != q % RING_QUEUE_SIZE
  {
  }

  /** Positions less than two laps apart share a slot only when they are exactly one lap apart. */
  lemma SlotsMeetAfterOneLap(p: nat, q: nat)
    requires p < q < p + 2 * RING_QUEUE_SIZE && q != p + RING_QUEUE_SIZE
    ensures p % RING_QUEUE_SIZE != q % RING_QUEUE_SIZE
  {
  }

  /** Word subtraction recovers a true difference that fits in a word. */
  lemma SubExact(a: nat, b: nat)
    requires b <= a < b + WORD
    ensures Sub(Wrap(a), Wrap(b)) == a - b
  {
    assert a == WORD * (a / WORD) + a % WORD;
    assert b == WORD * (b / WORD) + b % WORD;
  }

  lemma FreeSpaceExact(tail: nat, head: nat)
    requires head <= tail <= head + RING_QUEUE_SIZE
    ensures Sub(RING_QUEUE_SIZE, Sub(Wrap(tail), Wrap(head))) == RING_QUEUE_SIZE - (tail - head)
  {
    SubExact(tail, head);
  }

  /** Equal words of counters less than 2^32 apart come from equal counters. */
  lemma WrapInjective(a: nat, b: nat)
    requires b <= a < b + WORD
    requires Wrap(a) == Wrap(b)
    ensures a == b
  {
    SubExact(a, b);
  }

  lemma WrapAdd(a: nat, b: nat)
    ensures Wrap(Wrap(a) + b) == Wrap(a + b)
  {
  }

  lemma Wrap64Add(a: nat, b: nat)
    ensures Wrap64(Wrap64(a) + b) == Wrap64(a + b)
  {
  }
}
