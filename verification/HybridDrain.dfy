/** The hybrid server's synchronous write path, which compacts its buffer after every partial write. */
module HybridDrain {
  import opened Bytes
  import opened Words
  import opened ReactorEcho

  const HYBRID_BUFFER_SIZE := 4096

  /** pending is write_buf[..write_pending]; sent is everything written to the socket so far. */
  datatype WriteSide = WriteSide(pending: seq<byte>, writable: bool, open: bool, sent: seq<byte>)

  /** mt_try_write, without its asynchronous fallback */
  function WriteOnce(o: WriteSide, r: WriteResult): WriteSide {
    if !o.writable || o.pending == [] then o
    else
      match r
      case Wrote(n) =>
        var m := Min(n, |o.pending|);
        o.(pending := o.pending[m..], sent := o.sent + o.pending[..m])
      case WriteAgain => o.(writable := false)
      case WriteError => o.(open := false)
  }

  /** An EPOLLOUT event: the socket is writable again. */
  function OnWritable(o: WriteSide, r: WriteResult): WriteSide {
    if o.open then WriteOnce(o.(writable := true), r) else o
  }

  function CompactingDrain(o: WriteSide, results: seq<WriteResult>): WriteSide
    decreases |results|
  {
    if results == [] then o
    else OnWritable(CompactingDrain(o, results[..|results| - 1]), results[|results| - 1])
  }

  /** The reactor's drain of the same results: a cursor moves over a buffer that stays put. */
  function CursorDrain(c: Conn, results: seq<WriteResult>): (c': Conn)
    requires Valid(c)
    ensures Valid(c')
    decreases |results|
  {
    if results == [] then c
    else
      var before := CursorDrain(c, results[..|results| - 1]);
      if before.open then WriteEvent(before, results[|results| - 1]) else before
  }

  /** A message just loaded for writing. */
  function Loaded(message: seq<byte>): WriteSide {
    WriteSide(message, true, true, [])
  }

  function ReactorLoaded(message: seq<byte>): (c: Conn)
    requires 0 < |message| < HYBRID_BUFFER_SIZE
    ensures Valid(c)
  {
    assert message[0..] == message;
    Conn([], message, 0, Interest.Out, true, message, [])
  }

  /**
   The compacting drain and the cursor drain agree after every write result, whatever the results are: they
   have sent the same bytes, have the same bytes left (so they finish together), and fail together.
   */
  lemma {:induction false} DrainsAgree(message: seq<byte>, results: seq<WriteResult>)
    requires 0 < |message| < HYBRID_BUFFER_SIZE
    ensures
      var h := CompactingDrain(Loaded(message), results);
      var c := CursorDrain(ReactorLoaded(message), results);
      && h.sent == c.delivered
      && h.pending == c.outgoing[c.writeSent..]
      && h.open == c.open
      && (h.pending == [] <==> c.outgoing == [])
      && h.sent + h.pending == message
    decreases |results|
  {
    if results != [] {
      var k := |results| - 1;
      DrainsAgree(message, results[..k]);
      var h := CompactingDrain(Loaded(message), results[..k]);
      var c := CursorDrain(ReactorLoaded(message), results[..k]);
      if c.open {
        StepsAgree(h, c, results[k]);
      }
    }
  }

  lemma StepsAgree(h: WriteSide, c: Conn, r: WriteResult)
    requires Valid(c) && c.open && h.open
    requires h.sent == c.delivered && h.pending == c.outgoing[c.writeSent..]
    ensures
      var h', c' := OnWritable(h, r), WriteEvent(c, r);
      && h'.sent == c'.delivered
      && h'.pending == c'.outgoing[c'.writeSent..]
      && h'.open == c'.open
      && h'.sent + h'.pending == h.sent + h.pending
  {
    WriteOnceConserves(h.(writable := true), r);
    if r.Wrote? && h.pending != [] && r.n > 0 {
      SameBytesLeave(h, c, Min(r.n, |h.pending|));
    }
  }

  lemma SameBytesLeave(h: WriteSide, c: Conn, m: nat)
    requires c.writeSent <= |c.outgoing| && h.pending == c.outgoing[c.writeSent..] && m <= |h.pending|
    ensures h.pending[..m] == c.outgoing[c.writeSent..c.writeSent + m]
    ensures h.pending[m..] == AddRead(Sent(c, m)).outgoing[AddRead(Sent(c, m)).writeSent..]
  {
  }

  /** One connection's write side, updated in place. */
  class MtConnection {
    const writeBuf: array<byte>
    var writePending: nat
    var writable: bool
    var open: bool
    ghost var sent: seq<byte>

    ghost predicate Valid()
      reads this
    {
      writeBuf.Length == HYBRID_BUFFER_SIZE && writePending < HYBRID_BUFFER_SIZE
    }

    ghost function View(): WriteSide
      requires Valid()
      reads this, writeBuf
    {
      WriteSide(writeBuf[..writePending], writable, open, sent)
    }

    constructor ()
      ensures Valid() && fresh(writeBuf) && View() == WriteSide([], true, true, [])
    {
      writeBuf := new byte[HYBRID_BUFFER_SIZE](_ => 0);
      writePending, writable, open, sent := 0, true, true, [];
    }

    method TryWrite(result: WriteResult)
      requires Valid() && open
      modifies this, writeBuf
      ensures Valid() && View() == WriteOnce(old(View()), result)
    {
      if !writable || writePending == 0 {
        return;
      }
      match result {
        case Wrote(n) =>
          var m := Min(n, writePending);
          if m > 0 {
            ghost var bytes := writeBuf[..writePending];
            if m < writePending {
              forall i | 0 <= i < writePending - m {
                writeBuf[i] := writeBuf[m + i];
              }
            }
            assert writeBuf[..writePending - m] == bytes[m..];
            sent := sent + bytes[..m];
            writePending := writePending - m;
          }
        case WriteAgain =>
          writable := false;
        case WriteError =>
          open := false;
      }
    }

    /**
     mt_process_data: load the echo over whatever was pending and try to write it at once. Output is lost
     exactly if some was still pending.
     */
    method ProcessData(data: seq<byte>, result: WriteResult)
      requires Valid() && open
      modifies this, writeBuf
      ensures Valid()
      ensures |ECHO_PREFIX| + |data| < HYBRID_BUFFER_SIZE ==>
                sent + writeBuf[..writePending] == old(sent) + ECHO_PREFIX + data
      ensures |ECHO_PREFIX| + |data| < HYBRID_BUFFER_SIZE ==>
                (sent + writeBuf[..writePending] == old(sent + writeBuf[..writePending]) + (ECHO_PREFIX + data) <==>
                 old(writePending) == 0)
      ensures |ECHO_PREFIX| + |data| < HYBRID_BUFFER_SIZE ==>
                var echo := ECHO_PREFIX + data;
                var m := if old(writable) && result.Wrote? then Min(result.n, |echo|) else 0;
                && sent == old(sent) + echo[..m]
                && writeBuf[..writePending] == echo[m..]
                && (open <==> !(old(writable) && result.WriteError?))
                && (writable <==> old(writable) && !result.WriteAgain?)
      ensures |ECHO_PREFIX| + |data| >= HYBRID_BUFFER_SIZE ==> View() == old(View())
    {
      var total := |ECHO_PREFIX| + |data|;
      if total < HYBRID_BUFFER_SIZE {
        var echo := ECHO_PREFIX + data;
        forall i | 0 <= i < total {
          writeBuf[i] := echo[i];
        }
        assert writeBuf[..total] == echo;
        writePending := total;
        ghost var before := View();
        TryWrite(result);
        WriteOnceSends(before, result);
        WriteOnceConserves(before, result);
        assert old(sent) + ECHO_PREFIX + data == before.sent + before.pending;
      }
    }
  }

  /** One write attempt: what leaves, what stays, and what is learnt about the socket. */
  lemma WriteOnceSends(o: WriteSide, r: WriteResult)
    ensures
      var o' := WriteOnce(o, r);
      var m := if o.writable && r.Wrote? then Min(r.n, |o.pending|) else 0;
      && o'.sent == o.sent + o.pending[..m]
      && o'.pending == o.pending[m..]
      && (o'.open <==> o.open && !(o.writable && o.pending != [] && r.WriteError?))
      && (o'.writable <==> o.writable && !(o.pending != [] && r.WriteAgain?))
  {
  }

  lemma WriteOnceConserves(o: WriteSide, r: WriteResult)
    ensures WriteOnce(o, r).sent + WriteOnce(o, r).pending == o.sent + o.pending
  {
    if r.Wrote? {
      var m := Min(r.n, |o.pending|);
      assert o.pending == o.pending[..m] + o.pending[m..];
    }
  }
}
