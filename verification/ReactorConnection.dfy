/** The reactor's connection record with its two fixed buffers, updated in place by the event handlers. */
module ReactorConnection {
  import opened Bytes
  import opened Words
  import opened ReactorEcho

  class Connection {
    const readBuf: array<byte>
    var readLen: nat
    const writeBuf: array<byte>
    var writeLen: nat
    var writeSent: nat
    /** What epoll currently watches for. */
    var interest: Interest
    var open: bool
    ghost var received: seq<byte>
    ghost var delivered: seq<byte>

    /** Lengths and cursors fit the buffers, so no copy overruns. */
    ghost predicate InBounds()
      reads this
    {
      && readBuf.Length == writeBuf.Length == BUFFER_SIZE
      && readBuf != writeBuf
      && readLen <= BUFFER_SIZE
      && writeSent <= writeLen <= BUFFER_SIZE
    }

    ghost function View(): Conn
      requires InBounds()
      reads this, readBuf, writeBuf
    {
      Conn(readBuf[..readLen], writeBuf[..writeLen], writeSent, interest, open, received, delivered)
    }

    ghost predicate Valid()
      reads this, readBuf, writeBuf
    {
      InBounds() && ReactorEcho.Valid(View())
    }

    constructor ()
      ensures Valid() && View() == Fresh
      ensures fresh(readBuf) && fresh(writeBuf)
    {
      readBuf := new byte[BUFFER_SIZE](_ => 0);
      writeBuf := new byte[BUFFER_SIZE](_ => 0);
      readLen, writeLen, writeSent := 0, 0, 0;
      interest, open := In, true;
      received, delivered := [], [];
    }

    method HandleAddWrite()
      requires InBounds() && (writeLen == 0 ==> writeSent == 0)
      modifies this, writeBuf
      ensures InBounds() && View() == AddWrite(old(View()))
    {
      if writeLen == 0 && writeSent + readLen < BUFFER_SIZE {
        forall i | 0 <= i < readLen {
          writeBuf[writeSent + i] := readBuf[i];
        }
        assert writeBuf[..readLen] == readBuf[..readLen];
        writeLen := writeLen + readLen;
        readLen := 0;
      }
      interest := Out;
    }

    /** One successful read(2): bytes that fit are stored behind what is parked. */
    method ReadBytes(bytes: seq<byte>)
      requires InBounds()
      modifies this, readBuf
      ensures InBounds() && View() == Receive(old(View()), bytes)
      ensures writeLen == old(writeLen) && writeSent == old(writeSent)
    {
      var n := Min(|bytes|, BUFFER_SIZE - readLen);
      forall i | 0 <= i < n {
        readBuf[readLen + i] := bytes[i];
      }
      assert readBuf[..readLen + n] == old(readBuf[..readLen]) + bytes[..n];
      readLen := readLen + n;
      received := received + bytes[..n];
    }

    /**
     The edge-triggered read loop. It stops even if the peer never does: the calls made are bounded by the
     budget of the buffers.
     */
    method HandleReadEvent(peer: nat -> ReadResult) returns (calls: nat)
      requires Valid() && open
      modifies this, readBuf, writeBuf
      ensures Valid()
      ensures View() == ReadEvent(old(View()), peer, 0)
      ensures calls <= old(Budget(View())) + 1
    {
      calls := 0;
      while true
        invariant Valid()
        invariant ReadEvent(View(), peer, calls) == ReadEvent(old(View()), peer, 0)
        invariant calls + Budget(View()) <= old(Budget(View()))
        decreases Budget(View())
      {
        var remaining := BUFFER_SIZE - readLen;
        if remaining == 0 {
          break;
        }
        var result := peer(calls);
        match result {
          case Data(_, _) =>
            BudgetSpent(View(), result.Bytes());
            ReadBytes(result.Bytes());
            HandleAddWrite();
            calls := calls + 1;
          case Eof =>
            open := false;
            calls := calls + 1;
            break;
          case ReadAgain =>
            calls := calls + 1;
            break;
          case ReadError =>
            open := false;
            calls := calls + 1;
            break;
        }
      }
    }

    /** A successful write(2) of m bytes. */
    method RecordWritten(m: nat)
      requires InBounds() && writeSent + m <= writeLen
      modifies this
      ensures InBounds() && View() == Sent(old(View()), m)
    {
      assert writeBuf[..writeLen][writeSent..writeSent + m] == writeBuf[writeSent..writeSent + m];
      delivered := delivered + writeBuf[writeSent..writeSent + m];
      writeSent := writeSent + m;
    }

    method HandleAddReadEvent()
      requires InBounds()
      modifies this
      ensures InBounds() && View() == AddRead(old(View()))
    {
      if writeSent >= writeLen {
        interest := In;
        writeLen, writeSent := 0, 0;
      }
    }

    /** One connection's turn in handle_write_events. */
    method HandleWriteEvent(result: WriteResult)
      requires Valid() && open
      modifies this
      ensures Valid()
      ensures View() == WriteEvent(old(View()), result)
    {
      if writeSent < writeLen {
        match result {
          case Wrote(n) =>
            var m := Min(n, writeLen - writeSent);
            if m > 0 {
              SentIsValid(View(), m);
              RecordWritten(m);
              HandleAddReadEvent();
            }
          case WriteAgain =>
          case WriteError =>
            open := false;
        }
      }
    }
  }
}
