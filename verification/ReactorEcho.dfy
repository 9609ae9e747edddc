/** One connection of the reactor: what its two buffers hold and what its event handlers do to them. */
module ReactorEcho {
  import opened Bytes
  import opened Words

  const BUFFER_SIZE := 8192

  datatype Interest = In | Out

  /** What read(2) finds: at least one byte (it takes as many as fit), end of file, nothing yet, or an error. */
  datatype ReadResult = Data(first: byte, more: seq<byte>) | Eof | ReadAgain | ReadError
  {
    function Bytes(): seq<byte> {
      if Data? then [first] + more else []
    }
  }

  /** What write(2) reports: the number of bytes taken (never more than offered), or a failure. */
  datatype WriteResult = Wrote(n: nat) | WriteAgain | WriteError

  /**
   A connection's state: parked is read_buf[..read_len], outgoing is write_buf[..write_len]. received and
   delivered are all bytes read from and written to the socket so far.
   */
  datatype Conn = Conn(
    parked: seq<byte>,
    outgoing: seq<byte>,
    writeSent: nat,
    interest: Interest,
    open: bool,
    received: seq<byte>,
    delivered: seq<byte>)

  const Fresh := Conn([], [], 0, In, true, [], [])

  predicate Valid(c: Conn) {
    && |c.parked| <= BUFFER_SIZE
    && |c.outgoing| < BUFFER_SIZE
    && (if c.outgoing == [] then c.writeSent == 0 else c.writeSent < |c.outgoing|)
    && (c.interest.In? ==> c.outgoing == [])
    && (c.interest.Out? ==> c.outgoing != [] || |c.parked| == BUFFER_SIZE)
    && c.delivered + c.outgoing[c.writeSent..] + c.parked == c.received
  }

  /** handle_add_write */
  function AddWrite(c: Conn): Conn {
    var c' :=
      if c.outgoing == [] && c.writeSent + |c.parked| < BUFFER_SIZE then c.(outgoing := c.parked, parked := [])
      else c;
    c'.(interest := Out)
  }

  /** A successful read of at most what still fits. */
  function Receive(c: Conn, bytes: seq<byte>): Conn
    requires |c.parked| <= BUFFER_SIZE
  {
    var taken := bytes[..Min(|bytes|, BUFFER_SIZE - |c.parked|)];
    c.(parked := c.parked + taken, received := c.received + taken)
  }

  /** How many more bytes the read loop can take in before it must stop. */
  function Budget(c: Conn): nat {
    (if c.outgoing == [] then BUFFER_SIZE - 1 else 0) + (if |c.parked| < BUFFER_SIZE then BUFFER_SIZE - |c.parked| else 0)
  }

  lemma BudgetSpent(c: Conn, bytes: seq<byte>)
    requires Valid(c) && |c.parked| < BUFFER_SIZE && bytes != []
    ensures
      var c' := AddWrite(Receive(c, bytes));
      && Valid(c')
      && |c'.received| > |c.received|
      && Budget(c') + |c'.received| <= Budget(c) + |c.received|
  {
    var taken := bytes[..Min(|bytes|, BUFFER_SIZE - |c.parked|)];
    var c' := AddWrite(Receive(c, bytes));
    assert c.received + taken == c.delivered + c.outgoing[c.writeSent..] + (c.parked + taken);
    if c.outgoing == [] && |c.parked + taken| < BUFFER_SIZE {
      assert c'.outgoing[0..] == c.parked + taken;
    }
  }

  /**
   handle_read_event, from the k-th read call of the peer's stream on: read until the buffer is full or
   the socket has nothing more. `peer` may supply data forever.
   */
  function ReadEvent(c: Conn, peer: nat -> ReadResult, k: nat): (c': Conn)
    requires Valid(c)
    ensures Valid(c')
    ensures c.received <= c'.received && |c'.received| <= |c.received| + Budget(c)
    ensures c.delivered <= c'.delivered
    ensures c'.open ==> c.open
    decreases Budget(c)
  {
    if |c.parked| >= BUFFER_SIZE then c
    else
      match peer(k)
      case Data(first, more) =>
        BudgetSpent(c, peer(k).Bytes());
        ReadEvent(AddWrite(Receive(c, peer(k).Bytes())), peer, k + 1)
      case Eof => c.(open := false)
      case ReadAgain => c
      case ReadError => c.(open := false)
  }

  /** What n consecutive reads from the k-th on offer. */
  function Offered(peer: nat -> ReadResult, k: nat, n: nat): seq<byte>
    decreases n
  {
    if n == 0 then [] else peer(k).Bytes() + Offered(peer, k + 1, n - 1)
  }

  lemma OfferedMore(before: seq<byte>, peer: nat -> ReadResult, k: nat, n: nat)
    ensures before + peer(k).Bytes() + Offered(peer, k + 1, n) == before + Offered(peer, k, n + 1)
  {
    var bytes, rest := peer(k).Bytes(), Offered(peer, k + 1, n);
    assert Offered(peer, k, n + 1) == bytes + rest;
    Regroup(before, bytes, rest);
  }

  lemma Regroup(a: seq<byte>, b: seq<byte>, c: seq<byte>)
    ensures a + b + c == a + (b + c)
  {
  }

  lemma OneRead(c: Conn, peer: nat -> ReadResult, k: nat)
    requires Valid(c) && |c.parked| < BUFFER_SIZE && peer(k).Data?
    ensures Valid(AddWrite(Receive(c, peer(k).Bytes())))
    ensures Budget(AddWrite(Receive(c, peer(k).Bytes()))) < Budget(c)
    ensures ReadEvent(c, peer, k) == ReadEvent(AddWrite(Receive(c, peer(k).Bytes())), peer, k + 1)
    ensures
      var c1 := Receive(c, peer(k).Bytes());
      if |c1.parked| == BUFFER_SIZE then
        ReadEvent(c, peer, k) == AddWrite(c1) && c1.received <= c.received + peer(k).Bytes()
      else
        c1.received == c.received + peer(k).Bytes()
  {
    BudgetSpent(c, peer(k).Bytes());
  }

  /** The loop takes in the peer's bytes in order and without a gap; only its last read can be cut short. */
  lemma {:induction false} ReadEventFollowsThePeer(c: Conn, peer: nat -> ReadResult, k: nat)
    requires Valid(c)
    ensures exists n: nat :: ReadEvent(c, peer, k).received <= c.received + Offered(peer, k, n)
    decreases Budget(c)
  {
    if |c.parked| >= BUFFER_SIZE || !peer(k).Data? {
      assert c.received + Offered(peer, k, 0) == c.received;
    } else {
      var bytes := peer(k).Bytes();
      var c1 := Receive(c, bytes);
      OneRead(c, peer, k);
      if |c1.parked| == BUFFER_SIZE {
        assert Offered(peer, k, 1) == bytes + Offered(peer, k + 1, 0) == bytes;
      } else {
        ReadEventFollowsThePeer(AddWrite(c1), peer, k + 1);
        var n: nat :| ReadEvent(AddWrite(c1), peer, k + 1).received <= c1.received + Offered(peer, k + 1, n);
        OfferedMore(c.received, peer, k, n);
      }
    }
  }

  /** The connection after the n reads from the k-th on, all of which deliver data that fit. */
  function AfterReads(c: Conn, peer: nat -> ReadResult, k: nat, n: nat): (c': Conn)
    requires Valid(c) && Delivers(c, peer, k, n)
    ensures Valid(c')
    decreases n
  {
    if n == 0 then c
    else
      BudgetSpent(c, peer(k).Bytes());
      AfterReads(AddWrite(Receive(c, peer(k).Bytes())), peer, k + 1, n - 1)
  }

  /** The n reads from the k-th on all deliver data, and before each of them the buffer has room. */
  predicate Delivers(c: Conn, peer: nat -> ReadResult, k: nat, n: nat)
    requires Valid(c)
    decreases n
  {
    n == 0 ||
    (&& |c.parked| < BUFFER_SIZE && peer(k).Data?
     && (BudgetSpent(c, peer(k).Bytes()); Delivers(AddWrite(Receive(c, peer(k).Bytes())), peer, k + 1, n - 1)))
  }

  /** After n such reads the loop has to stop: the buffer is full, or the next read delivers nothing. */
  predicate StopsAfter(c: Conn, peer: nat -> ReadResult, k: nat, n: nat)
    requires Valid(c)
  {
    Delivers(c, peer, k, n) && (|AfterReads(c, peer, k, n).parked| >= BUFFER_SIZE || !peer(k + n).Data?)
  }

  /** The peer has gone, or the socket has failed, while the buffer had room to find out. */
  predicate Gone(c: Conn, peer: nat -> ReadResult, k: nat, n: nat)
    requires Valid(c)
  {
    && Delivers(c, peer, k, n)
    && |AfterReads(c, peer, k, n).parked| < BUFFER_SIZE
    && (peer(k + n).Eof? || peer(k + n).ReadError?)
  }

  /** The buffer is full, or the socket has nothing more for now. */
  predicate HasEnough(c: Conn, peer: nat -> ReadResult, k: nat, n: nat)
    requires Valid(c)
  {
    Delivers(c, peer, k, n) && (|AfterReads(c, peer, k, n).parked| >= BUFFER_SIZE || peer(k + n).ReadAgain?)
  }

  /** There is exactly one number of reads after which the loop has to stop. */
  lemma {:induction false} LoopStopsOnce(c: Conn, peer: nat -> ReadResult, k: nat) returns (n: nat)
    requires Valid(c)
    ensures StopsAfter(c, peer, k, n)
    ensures forall m: nat :: StopsAfter(c, peer, k, m) ==> m == n
    decreases Budget(c)
  {
    if |c.parked| >= BUFFER_SIZE || !peer(k).Data? {
      n := 0;
    } else {
      BudgetSpent(c, peer(k).Bytes());
      OneRead(c, peer, k);
      var c1 := AddWrite(Receive(c, peer(k).Bytes()));
      var n1 := LoopStopsOnce(c1, peer, k + 1);
      n := n1 + 1;
      forall m: nat | StopsAfter(c, peer, k, m)
        ensures m == n
      {
        assert m > 0 && StopsAfter(c1, peer, k + 1, m - 1);
      }
    }
  }

  /** The loop's result: the data of those reads, closed exactly if the read that stopped it found the peer gone. */
  lemma {:induction false} ReadEventStops(c: Conn, peer: nat -> ReadResult, k: nat, n: nat)
    requires Valid(c) && StopsAfter(c, peer, k, n)
    ensures
      ReadEvent(c, peer, k) ==
        if Gone(c, peer, k, n) then AfterReads(c, peer, k, n).(open := false) else AfterReads(c, peer, k, n)
    decreases n
  {
    if n > 0 {
      OneRead(c, peer, k);
      ReadEventStops(AddWrite(Receive(c, peer(k).Bytes())), peer, k + 1, n - 1);
    }
  }

  lemma {:induction false} ReadsKeepOpen(c: Conn, peer: nat -> ReadResult, k: nat, n: nat)
    requires Valid(c) && Delivers(c, peer, k, n)
    ensures AfterReads(c, peer, k, n).open == c.open
    ensures n > 0 ==> AfterReads(c, peer, k, n).interest.Out?
    decreases n
  {
    if n > 0 {
      BudgetSpent(c, peer(k).Bytes());
      ReadsKeepOpen(AddWrite(Receive(c, peer(k).Bytes())), peer, k + 1, n - 1);
    }
  }

  /**
   A read event closes the connection exactly if, after some number of reads that all deliver data and
   leave room in the buffer, the next read is an end of file or an error.
   */
  lemma ReadClosesIff(c: Conn, peer: nat -> ReadResult, k: nat)
    requires Valid(c) && c.open
    ensures !ReadEvent(c, peer, k).open <==> exists n: nat :: Gone(c, peer, k, n)
  {
    var n := LoopStopsOnce(c, peer, k);
    ReadEventStops(c, peer, k, n);
    ReadsKeepOpen(c, peer, k, n);
    forall m: nat | Gone(c, peer, k, m)
      ensures m == n
    {
      assert StopsAfter(c, peer, k, m);
    }
  }

  /** ... and it ends open exactly if the buffer is full or the socket has nothing more for now. */
  lemma ReadEndsOpenIff(c: Conn, peer: nat -> ReadResult, k: nat)
    requires Valid(c) && c.open
    ensures ReadEvent(c, peer, k).open <==> exists n: nat :: HasEnough(c, peer, k, n)
  {
    var n := LoopStopsOnce(c, peer, k);
    ReadEventStops(c, peer, k, n);
    ReadsKeepOpen(c, peer, k, n);
    assert HasEnough(c, peer, k, n) || Gone(c, peer, k, n);
    forall m: nat | HasEnough(c, peer, k, m)
      ensures m == n && !Gone(c, peer, k, m)
    {
      assert StopsAfter(c, peer, k, m);
    }
  }

  /** handle_add_read_event */
  function AddRead(c: Conn): Conn {
    if c.writeSent >= |c.outgoing| then c.(interest := In, outgoing := [], writeSent := 0) else c
  }

  /** The next m outgoing bytes leave. */
  function Sent(c: Conn, m: nat): Conn
    requires c.writeSent + m <= |c.outgoing|
  {
    c.(writeSent := c.writeSent + m, delivered := c.delivered + c.outgoing[c.writeSent..c.writeSent + m])
  }

  lemma SentIsValid(c: Conn, m: nat)
    requires Valid(c) && m > 0 && c.writeSent + m <= |c.outgoing|
    ensures Valid(AddRead(Sent(c, m)))
  {
    var chunk := c.outgoing[c.writeSent..c.writeSent + m];
    assert c.outgoing[c.writeSent..] == chunk + c.outgoing[c.writeSent + m..];
    assert c.delivered + chunk + c.outgoing[c.writeSent + m..] + c.parked == c.received;
    if c.writeSent + m == |c.outgoing| {
      assert c.outgoing[c.writeSent + m..] == [] && AddRead(Sent(c, m)).outgoing[0..] == [];
    }
  }

  /** The body of handle_write_events for one connection. */
  function WriteEvent(c: Conn, r: WriteResult): (c': Conn)
    requires Valid(c)
    ensures Valid(c')
    ensures c.delivered <= c'.delivered && c'.received == c.received
    ensures c'.open ==> c.open
  {
    if c.writeSent >= |c.outgoing| then c
    else
      match r
      case Wrote(n) =>
        var m := Min(n, |c.outgoing| - c.writeSent);
        if m == 0 then c
        else
          SentIsValid(c, m);
          AddRead(Sent(c, m))
      case WriteAgain => c
      case WriteError => c.(open := false)
  }

  /**
   What a write event does: it sends the next bytes, as many as the socket takes, is closed exactly if
   output is pending and the socket fails, and asks for input again exactly when it has sent the last byte.
   */
  lemma WriteEventSends(c: Conn, r: WriteResult)
    requires Valid(c) && c.open
    ensures
      var c' := WriteEvent(c, r);
      var left := c.outgoing[c.writeSent..];
      var m := if r.Wrote? then Min(r.n, |left|) else 0;
      && c'.delivered == c.delivered + left[..m]
      && c'.outgoing[c'.writeSent..] == left[m..]
      && c'.parked == c.parked
      && (!c'.open <==> left != [] && r.WriteError?)
      && (left != [] ==> (c'.interest.In? <==> m == |left|))
      && (left == [] ==> c' == c)
  {
    if c.writeSent < |c.outgoing| && r.Wrote? {
      var m := Min(r.n, |c.outgoing| - c.writeSent);
      if m > 0 {
        SentIsValid(c, m);
      }
    }
  }

  // ---- runs of events ----

  datatype Event = Readable(peer: nat -> ReadResult) | Writable(result: WriteResult)

  /** epoll reports only what the connection asked for, and nothing once it is closed. */
  function Deliver(c: Conn, e: Event): (c': Conn)
    requires Valid(c)
    ensures Valid(c')
  {
    if !c.open then c
    else
      match e
      case Readable(peer) => if c.interest.In? then ReadEvent(c, peer, 0) else c
      case Writable(r) => if c.interest.Out? then WriteEvent(c, r) else c
  }

  function DeliverAll(c: Conn, events: seq<Event>): (c': Conn)
    requires Valid(c)
    ensures Valid(c')
    decreases |events|
  {
    if events == [] then c else Deliver(DeliverAll(c, events[..|events| - 1]), events[|events| - 1])
  }

  /**
   For every run of partial reads and writes: what was written back, what is still to be written and what
   is parked are together exactly what was read, in order; and at most 2 * BUFFER_SIZE - 1 bytes are held.
   */
  lemma EchoConservesTheStream(events: seq<Event>)
    ensures
      var c := DeliverAll(Fresh, events);
      && c.received == c.delivered + c.outgoing[c.writeSent..] + c.parked
      && c.delivered <= c.received
      && |c.received| - |c.delivered| <= 2 * BUFFER_SIZE - 1
  {
    var c := DeliverAll(Fresh, events);
    assert Valid(c);
    assert c.received == c.delivered + (c.outgoing[c.writeSent..] + c.parked);
  }

  /** No further event can make the connection send anything. */
  predicate Stuck(c: Conn) {
    c.outgoing == [] && |c.parked| >= BUFFER_SIZE - 1
  }

  /** A buffer filled to its last byte is never moved to the write side, however long the run goes on. */
  lemma {:induction false} StuckStaysStuck(c: Conn, events: seq<Event>)
    requires Valid(c) && Stuck(c)
    ensures Stuck(DeliverAll(c, events))
    ensures DeliverAll(c, events).delivered == c.delivered
    decreases |events|
  {
    if events != [] {
      var before := DeliverAll(c, events[..|events| - 1]);
      StuckStaysStuck(c, events[..|events| - 1]);
      match events[|events| - 1]
      case Readable(peer) => StuckRead(before, peer, 0);
      case Writable(_) =>
    }
  }

  lemma {:induction false} StuckRead(c: Conn, peer: nat -> ReadResult, k: nat)
    requires Valid(c) && Stuck(c)
    ensures Stuck(ReadEvent(c, peer, k))
    ensures ReadEvent(c, peer, k).delivered == c.delivered
    decreases Budget(c)
  {
    if |c.parked| < BUFFER_SIZE && peer(k).Data? {
      BudgetSpent(c, peer(k).Bytes());
      StuckRead(AddWrite(Receive(c, peer(k).Bytes())), peer, k + 1);
    }
  }

  /**
   The echo can still make progress exactly when something is waiting to be written or the read buffer has
   room for two more bytes.
   */
  lemma CanStillSendIff(c: Conn)
    requires Valid(c) && c.open
    ensures (exists events :: |DeliverAll(c, events).delivered| > |c.delivered|) <==> !Stuck(c)
  {
    if Stuck(c) {
      forall events
        ensures |DeliverAll(c, events).delivered| <= |c.delivered|
      {
        StuckStaysStuck(c, events);
      }
    } else if c.outgoing != [] {
      WriteMakesProgress(c);
      var events := [Writable(Wrote(1))];
      assert events[..0] == [];
      assert DeliverAll(c, events) == Deliver(c, events[0]);
    } else {
      var events := [Readable(OneByte), Writable(Wrote(1))];
      assert events[..1] == [Readable(OneByte)] && events[..1][..0] == [];
      var c' := Deliver(c, Readable(OneByte));
      assert DeliverAll(c, events[..1]) == c';
      OneByteIsRead(c);
      WriteMakesProgress(c');
      assert DeliverAll(c, events) == Deliver(c', Writable(Wrote(1)));
    }
  }

  /** A peer that sends a single byte. */
  function OneByte(k: nat): ReadResult {
    if k == 0 then Data(0, []) else ReadAgain
  }

  lemma OneByteIsRead(c: Conn)
    requires Valid(c) && c.open && c.outgoing == [] && |c.parked| + 1 < BUFFER_SIZE
    ensures
      var c' := Deliver(c, Readable(OneByte));
      c'.open && c'.outgoing != [] && c'.delivered == c.delivered
  {
    BudgetSpent(c, OneByte(0).Bytes());
    var c1 := AddWrite(Receive(c, OneByte(0).Bytes()));
    assert c1.outgoing == c.parked + [0] && c1.open;
    assert ReadEvent(c, OneByte, 0) == ReadEvent(c1, OneByte, 1);
    assert OneByte(1) == ReadAgain;
    assert ReadEvent(c1, OneByte, 1) == c1;
  }

  lemma WriteMakesProgress(c: Conn)
    requires Valid(c) && c.open && c.outgoing != []
    ensures |Deliver(c, Writable(Wrote(1))).delivered| == |c.delivered| + 1
  {
  }

  /** A peer whose first packet fills the buffer. */
  function FullBuffer(k: nat): ReadResult {
    Data(0, seq(BUFFER_SIZE - 1, _ => 0))
  }

  /** This does happen: a connection whose first read returns BUFFER_SIZE bytes is stuck from then on. */
  lemma FirstFullReadGetsStuck(later: seq<Event>)
    ensures
      var c := Deliver(Fresh, Readable(FullBuffer));
      && |c.received| == BUFFER_SIZE
      && DeliverAll(c, later).delivered == []
  {
    var c1 := AddWrite(Receive(Fresh, FullBuffer(0).Bytes()));
    BudgetSpent(Fresh, FullBuffer(0).Bytes());
    assert |c1.parked| == BUFFER_SIZE && c1.outgoing == [];
    assert ReadEvent(Fresh, FullBuffer, 0) == ReadEvent(c1, FullBuffer, 1) == c1;
    StuckStaysStuck(c1, later);
  }
}
