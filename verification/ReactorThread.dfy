/**
 A reactor thread: its connection table, its statistics, and one pass of its event loop.

 Connections are identified by fresh identities. The records a thread has allocated and not yet freed are
 the domain of `conns`; every access to a record has to show that the record is in it, so a use after
 close or a second close would not verify.
 */
module ReactorThread {
  import opened ReactorActs
  import opened ReactorEcho
  import opened Sums

  const MAX_CONNECTIONS := 100000
  const BATCH_SIZE := 64

  datatype Slot = Free | Used(id: ConnId)

  function Occupied(s: Slot): nat {
    if s.Used? then 1 else 0
  }

  /** How the system calls of thread_add_connection turn out. */
  datatype Setup = Succeeds | AllocationFails | NonblockingFails | EpollFails

  /** One entry of the epoll result. */
  datatype Ready = Ready(id: ConnId, failed: bool, readable: bool, writable: bool)

  /** What the sockets and the clock do during one pass of the loop. */
  datatype World = World(
    peers: ConnId -> nat -> ReadResult,
    writes: ConnId -> WriteResult,
    expired: ConnId -> bool)

  /** What becomes of one connection during a pass in which epoll reports it as r. */
  function AfterEvent(c: Conn, r: Ready, w: World): (c': Conn)
    requires ReactorEcho.Valid(c)
    ensures ReactorEcho.Valid(c')
  {
    if r.failed then c.(open := false)
    else
      var c1 := if r.readable then ReadEvent(c, w.peers(r.id), 0) else c;
      if r.writable then WriteEvent(c1, w.writes(r.id)) else c1
  }

  class ReactorThread {
    const connections: array<Slot>
    var conns: map<ConnId, Conn>
    /** The descriptors registered with this thread's epoll instance. */
    var registered: set<ConnId>
    var connectionCount: nat
    var totalConnections: nat
    var activeConnections: nat
    /** Connections closed from the table, oldest first. */
    ghost var closed: seq<ConnId>
    /** Every use and every closing of a record since the thread started. */
    ghost var acts: seq<Act>

    ghost predicate Valid()
      reads this, connections
    {
      && connections.Length == MAX_CONNECTIONS
      && TableValid(connections[..], conns)
      && registered == conns.Keys
      && connectionCount == activeConnections == Sum(Occupied, connections[..])
      && totalConnections == activeConnections + |closed|
      && AllLive(conns)
      && ClosedApart(closed, conns)
      && Lived(acts, closed)
    }

    constructor ()
      ensures Valid() && fresh(connections)
      ensures conns == map[] && closed == [] && acts == []
    {
      connections := new Slot[MAX_CONNECTIONS](_ => Free);
      conns, registered := map[], {};
      connectionCount, totalConnections, activeConnections := 0, 0, 0;
      closed, acts := [], [];
      new;
      SumZero(Occupied, connections[..]);
    }

    /** thread_add_connection: take the first free slot; any failure leaves no trace. */
    method ThreadAddConnection(id: ConnId, setup: Setup) returns (ok: bool)
      requires Valid() && id !in conns && id !in closed
      modifies this, connections
      ensures Valid() && closed == old(closed) && acts == old(acts)
      ensures ok <==> setup.Succeeds? && Free in old(connections[..])
      ensures Free in connections[..] ==> Free in old(connections[..])
      ensures conns == if ok then old(conns)[id := Fresh] else old(conns)
      ensures connections[..] == if ok then Place(old(connections[..]), id) else old(connections[..])
      ensures totalConnections == old(totalConnections) + (if ok then 1 else 0)
    {
      var i := 0;
      while i < MAX_CONNECTIONS
        invariant 0 <= i <= MAX_CONNECTIONS
        invariant forall j :: 0 <= j < i ==> connections[j].Used?
        invariant unchanged(this) && unchanged(connections)
      {
        if connections[i].Free? {
          if !setup.Succeeds? {
            return false;
          }
          PlaceAt(connections[..], i, id);
          TakeSlot(i, id);
          return true;
        }
        i := i + 1;
      }
      return false;
    }

    /** Setup succeeded and slot i is free: enter a fresh record. */
    method TakeSlot(i: nat, id: ConnId)
      requires Valid() && i < MAX_CONNECTIONS && connections[i].Free? && id !in conns && id !in closed
      modifies this, connections
      ensures Valid() && closed == old(closed) && acts == old(acts)
      ensures conns == old(conns)[id := Fresh]
      ensures connections[..] == old(connections[..])[i := Used(id)]
      ensures totalConnections == old(totalConnections) + 1
    {
      AddToTable(connections[..], conns, i, id);
      SumUpdate(Occupied, connections[..], i, Used(id));
      registered := registered + {id};
      connections[i] := Used(id);
      assert connections[..] == old(connections[..])[i := Used(id)];
      conns := conns[id := Fresh];
      connectionCount := connectionCount + 1;
      totalConnections := totalConnections + 1;
      activeConnections := activeConnections + 1;
    }

    /** handle_close_event: the record must not have been freed before. */
    method HandleCloseEvent(id: ConnId)
      requires Valid() && id in conns
      modifies this, connections
      ensures Valid()
      ensures conns == old(conns) - {id}
      ensures closed == old(closed) + [id] && acts == old(acts) + [Close(id)]
      ensures totalConnections == old(totalConnections)
      ensures forall j :: 0 <= j < MAX_CONNECTIONS ==>
                connections[j] == if old(connections[j]) == Used(id) then Free else old(connections[j])
    {
      for i := 0 to MAX_CONNECTIONS
        invariant forall j :: 0 <= j < i ==> connections[j] != Used(id)
        invariant unchanged(this) && unchanged(connections)
      {
        if connections[i] == Used(id) {
          OnlySlot(connections[..], conns, i, id);
          ClearSlot(i, id);
          return;
        }
      }
      assert false;
    }

    /** The record's slot is found: take it out of the table and free it. */
    method ClearSlot(i: nat, id: ConnId)
      requires Valid() && i < MAX_CONNECTIONS && connections[i] == Used(id)
      modifies this, connections
      ensures Valid()
      ensures conns == old(conns) - {id}
      ensures closed == old(closed) + [id] && acts == old(acts) + [Close(id)]
      ensures totalConnections == old(totalConnections)
      ensures connections[..] == old(connections[..])[i := Free]
    {
      RemoveFromTable(connections[..], conns, i, id);
      CloseApart(closed, conns, id);
      LiveOn(acts, closed, conns, id, true);
      SumUpdate(Occupied, connections[..], i, Free);
      registered := registered - {id};
      connections[i] := Free;
      assert connections[..] == old(connections[..])[i := Free];
      connectionCount := connectionCount - 1;
      activeConnections := activeConnections - 1;
      conns := conns - {id};
      closed, acts := closed + [id], acts + [Close(id)];
    }

    /** A handler uses the record, which must not have been freed. */
    ghost method Use(id: ConnId)
      requires Valid() && id in conns
      modifies this`acts
      ensures Valid() && acts == old(acts) + OneAct(id, false)
    {
      LiveOn(acts, closed, conns, id, false);
      acts := acts + [Touch(id)];
    }

    /** process_new_connections_batch: every popped descriptor is either in the table afterwards or closed at once. */
    method ProcessNewConnectionsBatch(fds: seq<ConnId>, setups: ConnId -> Setup)
      returns (successes: nat, ghost added: seq<ConnId>, ghost rejected: seq<ConnId>)
      requires Valid() && |fds| <= BATCH_SIZE
      requires forall i :: 0 <= i < |fds| ==> fds[i] !in conns && fds[i] !in closed
      requires NoRepeats(fds)
      modifies this, connections
      ensures Valid() && closed == old(closed) && acts == old(acts)
      ensures Split(fds, added, rejected)
      ensures conns == WithFresh(old(conns), added)
      ensures Justified(added, rejected, setups, connections[..])
      ensures connections[..] == PlaceAll(old(connections[..]), added)
      ensures successes == |added| && totalConnections == old(totalConnections) + successes
    {
      successes, added, rejected := 0, [], [];
      ghost var table, before := connections[..], conns;
      for i := 0 to |fds|
        invariant Valid() && closed == old(closed) && acts == old(acts)
        invariant Split(fds[..i], added, rejected)
        invariant conns == WithFresh(before, added)
        invariant Justified(added, rejected, setups, connections[..])
        invariant connections[..] == PlaceAll(table, added)
        invariant successes == |added| && totalConnections == old(totalConnections) + successes
      {
        var fd := fds[i];
        SplitMore(fds, i, added, rejected);
        WithFreshMore(before, added, fd);
        NotAddedYet(fds, i, before, closed, added);
        PlaceMore(table, added, fd);
        ghost var slots := connections[..];
        var ok := ThreadAddConnection(fd, setups(fd));
        JustifiedMore(added, rejected, setups, slots, connections[..], fd, ok);
        if ok {
          successes := successes + 1;
          added := added + [fd];
        } else {
          rejected := rejected + [fd];
        }
      }
      assert fds[..|fds|] == fds;
    }

    // ---- one pass of the event loop ----

    /** A handler uses the record; then store its outcome: the record is updated, or closed and freed. */
    method Settle(id: ConnId, c: Conn, ghost gone: seq<ConnId>, ghost before: map<ConnId, Conn>)
      requires Valid() && id in conns && ReactorEcho.Valid(c)
      requires ClosedExactly(gone, before, closed, conns)
      modifies this, connections
      ensures totalConnections == old(totalConnections)
      ensures Valid() && ClosedExactly(gone, before, closed, conns)
      ensures conns == SettleIn(old(conns), id, c)
      ensures closed == ClosedAfter(old(closed), id, c)
      ensures acts == old(acts) + OneAct(id, !c.open)
      ensures Cleared(old(connections[..]), connections[..])
    {
      SettleClosesExactly(gone, before, closed, conns, id, c);
      Use(id);
      if c.open {
        conns := conns[id := c];
      } else {
        HandleCloseEvent(id);
      }
    }

    /**
     Steps 3 to 5 of reactor_thread_main: classify the events, then run the read and the write handlers.
     Each reported connection ends up as its own event leaves it, every other one is untouched, and what
     was closed was closed once.
     */
    method HandleEvents(events: seq<Ready>, w: World)
      requires Valid() && Reportable(conns, events)
      modifies this, connections
      ensures totalConnections == old(totalConnections)
      ensures Valid()
      ensures conns.Keys <= old(conns).Keys
      ensures forall i :: 0 <= i < |events| ==> Became(old(conns), conns, events[i], w)
      ensures forall id :: id in old(conns) && (forall i :: 0 <= i < |events| ==> events[i].id != id) ==>
                id in conns && conns[id] == old(conns)[id]
      ensures ClosedExactly(old(closed), old(conns), closed, conns)
      ensures Follows(old(acts), acts, PassActs(events, ReadCloses(old(conns), w), WriteCloses(old(conns), w)))
      ensures conns == AfterEvents(old(conns), events, w)
      ensures connections[..] == StillIn(old(connections[..]), conns)
    {
      ghost var table := connections[..];
      ghost var before, gone := conns, closed;
      ghost var start := acts;
      var readConns, writeConns := ClassifyEvents(events, w);
      ghost var classified, table1 := acts, connections[..];
      ListsAreApart(before, events);
      assert forall i :: 0 <= i < |readConns| ==> readConns[i] in Elems(readConns);
      assert forall i :: 0 <= i < |writeConns| ==> writeConns[i] in Elems(writeConns);
      ghost var failed, toRead := FailedIds(events), ReadIds(events);
      HandleReadEvents(readConns, w, gone, before, failed);
      ghost var readDone, table2 := acts, connections[..];
      HandleWriteEvents(writeConns, w, gone, before, failed, toRead);
      PassInSteps(start, classified, readDone, acts, events, ReadCloses(before, w), WriteCloses(before, w));
      ClearedOn(table, table1, table2);
      ClearedOn(table, table2, connections[..]);
      ClearedIsStillIn(table, before, connections[..], conns);
      StageMatchesEvents(before, events, w);
    }

    /** Step 4. */
    method HandleReadEvents(
        readConns: seq<ConnId>, w: World, ghost gone: seq<ConnId>, ghost before: map<ConnId, Conn>, ghost failed: set<ConnId>)
      requires Valid() && AllLive(before) && ClosedExactly(gone, before, closed, conns)
      requires forall i :: 0 <= i < |readConns| ==> readConns[i] in before && readConns[i] !in failed
      requires NoRepeats(readConns)
      requires conns == Stage(before, failed, {}, {}, w)
      modifies this, connections
      ensures totalConnections == old(totalConnections)
      ensures Valid() && ClosedExactly(gone, before, closed, conns)
      ensures conns == Stage(before, failed, Elems(readConns), {}, w)
      ensures Follows(old(acts), acts, Acts(readConns, ReadCloses(before, w)))
      ensures Cleared(old(connections[..]), connections[..])
    {
      ghost var table := connections[..];
      ghost var start, closing := acts, ReadCloses(before, w);
      assert Elems(readConns[..0]) == {};
      for i := 0 to |readConns|
        invariant totalConnections == old(totalConnections)
        invariant Valid() && ClosedExactly(gone, before, closed, conns)
        invariant conns == Stage(before, failed, Elems(readConns[..i]), {}, w)
        invariant InStep(acts, start, readConns, i, closing)
        invariant Cleared(table, connections[..])
      {
        var id := readConns[i];
        StageRead(before, failed, readConns, i, w);
        var c := ReadEvent(conns[id], w.peers(id), 0);
        StepOn(acts, start, readConns, i, closing, !c.open);
        ghost var sofar := connections[..];
        Settle(id, c, gone, before);
        ClearedOn(table, sofar, connections[..]);
      }
      assert readConns[..|readConns|] == readConns;
      StepDone(acts, start, readConns, closing);
    }

    /** Step 5. */
    method HandleWriteEvents(
        writeConns: seq<ConnId>, w: World, ghost gone: seq<ConnId>, ghost before: map<ConnId, Conn>,
        ghost failed: set<ConnId>, ghost toRead: set<ConnId>)
      requires Valid() && AllLive(before) && ClosedExactly(gone, before, closed, conns)
      requires forall i :: 0 <= i < |writeConns| ==>
                 writeConns[i] in before && writeConns[i] !in failed && writeConns[i] !in toRead
      requires NoRepeats(writeConns)
      requires conns == Stage(before, failed, toRead, {}, w)
      modifies this, connections
      ensures totalConnections == old(totalConnections)
      ensures Valid() && ClosedExactly(gone, before, closed, conns)
      ensures conns == Stage(before, failed, toRead, Elems(writeConns), w)
      ensures Follows(old(acts), acts, Acts(writeConns, WriteCloses(before, w)))
      ensures Cleared(old(connections[..]), connections[..])
    {
      ghost var table := connections[..];
      ghost var start, closing := acts, WriteCloses(before, w);
      assert Elems(writeConns[..0]) == {};
      for i := 0 to |writeConns|
        invariant totalConnections == old(totalConnections)
        invariant Valid() && ClosedExactly(gone, before, closed, conns)
        invariant conns == Stage(before, failed, toRead, Elems(writeConns[..i]), w)
        invariant InStep(acts, start, writeConns, i, closing)
        invariant Cleared(table, connections[..])
      {
        var id := writeConns[i];
        StageWrite(before, failed, toRead, writeConns, i, w);
        var c := WriteEvent(conns[id], w.writes(id));
        StepOn(acts, start, writeConns, i, closing, !c.open);
        ghost var sofar := connections[..];
        Settle(id, c, gone, before);
        ClearedOn(table, sofar, connections[..]);
      }
      assert writeConns[..|writeConns|] == writeConns;
      StepDone(acts, start, writeConns, closing);
    }

    /** Step 3: connections in error are closed, the others are listed by what they are ready for. */
    method ClassifyEvents(events: seq<Ready>, ghost w: World) returns (readConns: seq<ConnId>, writeConns: seq<ConnId>)
      requires Valid() && Reportable(conns, events)
      modifies this, connections
      ensures totalConnections == old(totalConnections)
      ensures Valid() && ClosedExactly(old(closed), old(conns), closed, conns)
      ensures conns == Stage(old(conns), FailedIds(events), {}, {}, w)
      ensures readConns == ReadList(events) && Elems(readConns) == ReadIds(events)
      ensures writeConns == WriteList(events) && Elems(writeConns) == WriteIds(events)
      ensures NoRepeats(readConns)
      ensures NoRepeats(writeConns)
      ensures Follows(old(acts), acts, Acts(AllIds(events), FailedIds(events)))
      ensures Cleared(old(connections[..]), connections[..])
    {
      ghost var table := connections[..];
      ghost var start, ids, failed, gone, before := acts, AllIds(events), FailedIds(events), closed, conns;
      readConns, writeConns := [], [];
      for i := 0 to |events|
        invariant totalConnections == old(totalConnections)
        invariant Valid() && ClosedExactly(gone, before, closed, conns)
        invariant conns == before - FailedIds(events[..i])
        invariant readConns == ReadList(events[..i])
        invariant writeConns == WriteList(events[..i])
        invariant InStep(acts, start, ids, i, failed)
        invariant Cleared(table, connections[..])
      {
        var r := events[i];
        ClassifyStep(before, events, i);
        StepOn(acts, start, ids, i, failed, r.failed);
        ghost var sofar := connections[..];
        CloseIfFailed(r, gone, before);
        ClearedOn(table, sofar, connections[..]);
        if !r.failed && r.readable {
          readConns := readConns + [r.id];
        }
        if !r.failed && r.writable {
          writeConns := writeConns + [r.id];
        }
      }
      assert events[..|events|] == events;
      StepDone(acts, start, ids, failed);
      ListsMatchIds(events);
      StageFailed(before, failed, w);
    }

    method CloseIfFailed(r: Ready, ghost gone: seq<ConnId>, ghost before: map<ConnId, Conn>)
      requires Valid() && r.id in conns && ClosedExactly(gone, before, closed, conns)
      modifies this, connections
      ensures totalConnections == old(totalConnections)
      ensures Valid() && ClosedExactly(gone, before, closed, conns)
      ensures conns == if r.failed then old(conns) - {r.id} else old(conns)
      ensures acts == old(acts) + OneAct(r.id, r.failed)
      ensures Cleared(old(connections[..]), connections[..])
    {
      if r.failed {
        Settle(r.id, conns[r.id].(open := false), gone, before);
      } else {
        Use(r.id);
      }
    }

    /** Step 6: connections idle for too long are closed. */
    method CloseExpired(w: World)
      requires Valid()
      modifies this, connections
      ensures totalConnections == old(totalConnections)
      ensures Valid()
      ensures conns == old(conns) - (set id | id in old(conns) && w.expired(id))
      ensures ClosedExactly(old(closed), old(conns), closed, conns)
      ensures Follows(old(acts), acts, SweepActs(old(connections[..]), w))
    {
      ghost var slots, before, start := connections[..], conns, acts;
      for i := 0 to MAX_CONNECTIONS
        invariant totalConnections == old(totalConnections)
        invariant Valid() && ClosedExactly(old(closed), before, closed, conns)
        invariant forall j :: i <= j < MAX_CONNECTIONS ==> connections[j] == slots[j]
        invariant conns == before - ExpiredIn(slots[..i], w)
        invariant Follows(start, acts, SweepActs(slots[..i], w))
      {
        ghost var sofar := acts;
        ExpiredMore(before, slots, i, w);
        CloseIfExpired(i, w, old(closed), before);
        SweepOn(start, sofar, acts, slots, i, w);
      }
      assert slots[..MAX_CONNECTIONS] == slots;
      AllExpired(before, slots, w);
    }

    /** The sweep's look at one slot. */
    method CloseIfExpired(i: nat, w: World, ghost gone: seq<ConnId>, ghost before: map<ConnId, Conn>)
      requires Valid() && i < MAX_CONNECTIONS && ClosedExactly(gone, before, closed, conns)
      modifies this, connections
      ensures totalConnections == old(totalConnections)
      ensures Valid() && ClosedExactly(gone, before, closed, conns)
      ensures conns == old(conns) - ExpiredIn([old(connections[i])], w)
      ensures forall j :: i < j < MAX_CONNECTIONS ==> connections[j] == old(connections[j])
      ensures Follows(old(acts), acts, SlotActs(old(connections[i]), w))
    {
      ExpiredOne(connections[i], w);
      match connections[i] {
        case Used(id) =>
          assert connections[..][i] == Used(id);
          Use(id);
          if w.expired(id) {
            SettleClosesExactly(gone, before, closed, conns, id, Fresh.(open := false));
            assert forall j :: i < j < MAX_CONNECTIONS ==> connections[..][j] != connections[..][i];
            HandleCloseEvent(id);
          }
        case Free =>
      }
    }

    /**
     One iteration of reactor_thread_main. epoll reports on the connections registered when it is asked.
     Every connection the thread knew or took over is what its own event makes of it, and is closed once if
     that closes it or if the sweep finds it expired.
     */
    method RunPass(fds: seq<ConnId>, setups: ConnId -> Setup, epoll: map<ConnId, Conn> -> seq<Ready>, w: World, sweep: bool)
      returns (ghost added: seq<ConnId>, ghost rejected: seq<ConnId>)
      requires Valid() && |fds| <= BATCH_SIZE
      requires forall i :: 0 <= i < |fds| ==> fds[i] !in conns && fds[i] !in closed
      requires NoRepeats(fds)
      requires forall m :: Reportable(m, epoll(m))
      modifies this, connections
      ensures Valid()
      ensures Split(fds, added, rejected)
      ensures Justified(added, rejected, setups, PlaceAll(old(connections[..]), added))
      ensures totalConnections == old(totalConnections) + |added|
      ensures old(closed) <= closed
      ensures conns.Keys + Elems(closed[|old(closed)|..]) == old(conns).Keys + Elems(added)
      ensures
        var before := WithFresh(old(conns), added);
        PassOutcome(before, conns, epoll(before), w, sweep)
      ensures
        var before := WithFresh(old(conns), added);
        PassAndSweep(old(acts), acts, epoll(before), before, PlaceAll(old(connections[..]), added), w, sweep)
    {
      var successes;
      successes, added, rejected := ProcessNewConnectionsBatch(fds, setups);
      ghost var before, gone := conns, closed;
      HandleAndSweep(epoll(conns), w, sweep);
      AllAccountedFor(gone, before, closed, conns);
      assert before.Keys == old(conns).Keys + Elems(added);
    }

    /** Steps 3 to 6. */
    method HandleAndSweep(events: seq<Ready>, w: World, sweep: bool)
      requires Valid() && Reportable(conns, events)
      modifies this, connections
      ensures totalConnections == old(totalConnections)
      ensures Valid() && ClosedExactly(old(closed), old(conns), closed, conns)
      ensures PassOutcome(old(conns), conns, events, w, sweep)
      ensures PassAndSweep(old(acts), acts, events, old(conns), old(connections[..]), w, sweep)
    {
      ghost var before, gone, start, table := conns, closed, acts, connections[..];
      HandleEvents(events, w);
      ghost var closedSoFar, between, handled := closed, conns, acts;
      if sweep {
        CloseExpired(w);
        FollowsOn(start, handled, acts, PassActs(events, ReadCloses(before, w), WriteCloses(before, w)),
                  SweepActs(StillIn(table, between), w));
        ClosedInTwoSteps(gone, before, closedSoFar, between, closed, conns);
      }
      PassOutcomeHolds(before, between, conns, events, w, sweep);
    }
  }

  /** The table of records after the event handlers, each reported connection having had its own event. */
  ghost function AfterEvents(before: map<ConnId, Conn>, events: seq<Ready>, w: World): map<ConnId, Conn> {
    Stage(before, FailedIds(events), ReadIds(events), WriteIds(events), w)
  }

  /** What a connection is, if still open, after a pass that reported r about it. */
  ghost predicate LeftAs(after: map<ConnId, Conn>, id: ConnId, c: Conn, w: World, sweep: bool) {
    if c.open && !(sweep && w.expired(id)) then id in after && after[id] == c else id !in after
  }

  /**
   After a pass: a reported connection is as its event leaves it, any other as it was; the closed ones are
   gone, and with a sweep the expired ones, and there is nothing else.
   */
  ghost predicate PassOutcome(
    before: map<ConnId, Conn>, after: map<ConnId, Conn>, events: seq<Ready>, w: World, sweep: bool)
  {
    && AllLive(before)
    && after.Keys <= before.Keys
    && (forall i :: 0 <= i < |events| ==>
          events[i].id in before && LeftAs(after, events[i].id, AfterEvent(before[events[i].id], events[i], w), w, sweep))
    && (forall id :: id in before && (forall i :: 0 <= i < |events| ==> events[i].id != id) ==>
          LeftAs(after, id, before[id], w, sweep))
  }

  lemma PassOutcomeHolds(
    before: map<ConnId, Conn>, between: map<ConnId, Conn>, after: map<ConnId, Conn>, events: seq<Ready>, w: World, sweep: bool)
    requires AllLive(before) && Reportable(before, events) && between == AfterEvents(before, events, w)
    requires after == if sweep then between - (set id | id in between && w.expired(id)) else between
    ensures PassOutcome(before, after, events, w, sweep)
  {
    StageMatchesEvents(before, events, w);
    forall i | 0 <= i < |events|
      ensures events[i].id in before && LeftAs(after, events[i].id, AfterEvent(before[events[i].id], events[i], w), w, sweep)
    {
      assert Became(before, between, events[i], w);
    }
  }

  /** The trace goes on by a pass with these events, and with a sweep over what they have left in the table. */
  ghost predicate PassAndSweep(
    before: seq<Act>, after: seq<Act>, events: seq<Ready>, conns: map<ConnId, Conn>, table: seq<Slot>, w: World, sweep: bool)
  {
    Follows(before, after,
            PassActs(events, ReadCloses(conns, w), WriteCloses(conns, w))
            + (if sweep then SweepActs(StillIn(table, AfterEvents(conns, events, w)), w) else []))
  }

  // ---- the table ----

  /** A connection goes into the first free slot. */
  function Place(slots: seq<Slot>, id: ConnId): seq<Slot> {
    if slots == [] then []
    else if slots[0].Free? then [Used(id)] + slots[1..]
    else [slots[0]] + Place(slots[1..], id)
  }

  function PlaceAll(slots: seq<Slot>, ids: seq<ConnId>): seq<Slot> {
    if ids == [] then slots else Place(PlaceAll(slots, ids[..|ids| - 1]), ids[|ids| - 1])
  }

  lemma {:induction false} PlaceAt(slots: seq<Slot>, i: nat, id: ConnId)
    requires i < |slots| && slots[i].Free? && forall j :: 0 <= j < i ==> slots[j].Used?
    ensures Place(slots, id) == slots[i := Used(id)]
  {
    if i > 0 {
      PlaceAt(slots[1..], i - 1, id);
    }
  }

  lemma PlaceMore(slots: seq<Slot>, ids: seq<ConnId>, id: ConnId)
    ensures PlaceAll(slots, ids + [id]) == Place(PlaceAll(slots, ids), id)
  {
    assert (ids + [id])[..|ids|] == ids;
  }

  /** The second table is the first with some slots set free. */
  ghost predicate Cleared(a: seq<Slot>, b: seq<Slot>) {
    |a| == |b| && forall j :: 0 <= j < |a| ==> b[j] == a[j] || b[j].Free?
  }

  lemma ClearedOn(a: seq<Slot>, b: seq<Slot>, c: seq<Slot>)
    requires Cleared(a, b) && Cleared(b, c)
    ensures Cleared(a, c)
  {
  }

  /** The table with the slots of all connections that are no longer live set free. */
  function StillIn(slots: seq<Slot>, conns: map<ConnId, Conn>): seq<Slot> {
    seq(|slots|, i requires 0 <= i < |slots| => if slots[i].Used? && slots[i].id in conns then slots[i] else Free)
  }

  lemma ClearedIsStillIn(a: seq<Slot>, before: map<ConnId, Conn>, b: seq<Slot>, conns: map<ConnId, Conn>)
    requires TableValid(a, before) && TableValid(b, conns) && Cleared(a, b)
    ensures b == StillIn(a, conns)
  {
    forall j | 0 <= j < |a| && a[j].Used? && a[j].id in conns
      ensures b[j] == a[j]
    {
      var k :| 0 <= k < |b| && b[k] == Used(a[j].id);
      assert a[k] == b[k] == a[j];
    }
  }

  // ---- what a pass does to records ----

  function AllIds(events: seq<Ready>): seq<ConnId> {
    seq(|events|, i requires 0 <= i < |events| => events[i].id)
  }

  /**
   Everything one pass does to connection records: the classification closes the failed ones, then the
   read handlers close those in readCloses and the write handlers those in writeCloses.
   */
  function PassActs(events: seq<Ready>, readCloses: set<ConnId>, writeCloses: set<ConnId>): seq<Act> {
    Acts(AllIds(events), FailedIds(events)) + Acts(ReadList(events), readCloses) + Acts(WriteList(events), writeCloses)
  }

  lemma PassInSteps(
    start: seq<Act>, classified: seq<Act>, readDone: seq<Act>, end: seq<Act>,
    events: seq<Ready>, readCloses: set<ConnId>, writeCloses: set<ConnId>)
    requires Follows(start, classified, Acts(AllIds(events), FailedIds(events)))
    requires Follows(classified, readDone, Acts(ReadList(events), readCloses))
    requires Follows(readDone, end, Acts(WriteList(events), writeCloses))
    ensures Follows(start, end, PassActs(events, readCloses, writeCloses))
  {
  }

  /** Connections whose read or write handler, run now, would close them. */
  ghost function ReadCloses(conns: map<ConnId, Conn>, w: World): set<ConnId> {
    set id | id in conns && ReactorEcho.Valid(conns[id]) && !ReadEvent(conns[id], w.peers(id), 0).open
  }

  ghost function WriteCloses(conns: map<ConnId, Conn>, w: World): set<ConnId> {
    set id | id in conns && ReactorEcho.Valid(conns[id]) && !WriteEvent(conns[id], w.writes(id)).open
  }

  /** The timer sweep looks at every used slot and closes what has expired. */
  function SlotActs(slot: Slot, w: World): seq<Act> {
    match slot
    case Free => []
    case Used(id) => OneAct(id, w.expired(id))
  }

  function SweepActs(slots: seq<Slot>, w: World): seq<Act> {
    if slots == [] then [] else SweepActs(slots[..|slots| - 1], w) + SlotActs(slots[|slots| - 1], w)
  }

  lemma IdsByEvent(events: seq<Ready>)
    requires forall i, j :: 0 <= i < j < |events| ==> events[i].id != events[j].id
    ensures forall i :: 0 <= i < |events| ==>
              && (events[i].id in FailedIds(events) <==> events[i].failed)
              && (events[i].id in ReadIds(events) <==> !events[i].failed && events[i].readable)
              && (events[i].id in WriteIds(events) <==> !events[i].failed && events[i].writable)
    ensures FailedIds(events) + ReadIds(events) + WriteIds(events) <= Elems(AllIds(events))
  {
    forall id | id in FailedIds(events) + ReadIds(events) + WriteIds(events)
      ensures id in AllIds(events)
    {
      var i :| 0 <= i < |events| && events[i].id == id;
      assert AllIds(events)[i] == id;
    }
  }

  lemma SweepOn(start: seq<Act>, sofar: seq<Act>, now: seq<Act>, slots: seq<Slot>, i: nat, w: World)
    requires i < |slots|
    requires Follows(start, sofar, SweepActs(slots[..i], w)) && Follows(sofar, now, SlotActs(slots[i], w))
    ensures Follows(start, now, SweepActs(slots[..i + 1], w))
  {
    assert slots[..i + 1][..i] == slots[..i];
  }

  function ExpiredIn(slots: seq<Slot>, w: World): set<ConnId> {
    set s | s in slots && s.Used? && w.expired(s.id) :: s.id
  }

  lemma AllExpired(before: map<ConnId, Conn>, slots: seq<Slot>, w: World)
    requires TableValid(slots, before)
    ensures before - ExpiredIn(slots, w) == before - (set id | id in before && w.expired(id))
  {
    forall id | id in before
      ensures id in ExpiredIn(slots, w) <==> w.expired(id)
    {
      assert Used(id) in slots;
    }
  }

  lemma ExpiredOne(slot: Slot, w: World)
    ensures ExpiredIn([slot], w) == if slot.Used? && w.expired(slot.id) then {slot.id} else {}
  {
    assert [slot][0] == slot;
  }

  lemma ExpiredMore(before: map<ConnId, Conn>, slots: seq<Slot>, i: nat, w: World)
    requires i < |slots|
    ensures before - ExpiredIn(slots[..i + 1], w) == before - ExpiredIn(slots[..i], w) - ExpiredIn([slots[i]], w)
  {
    assert slots[..i + 1] == slots[..i] + [slots[i]];
    assert ExpiredIn(slots[..i + 1], w) == ExpiredIn(slots[..i], w) + ExpiredIn([slots[i]], w);
  }

  /** No closed connection is live, and none was closed twice. */
  ghost predicate ClosedApart(closed: seq<ConnId>, conns: map<ConnId, Conn>) {
    (forall i :: 0 <= i < |closed| ==> closed[i] !in conns) && NoRepeats(closed)
  }

  lemma CloseApart(closed: seq<ConnId>, conns: map<ConnId, Conn>, id: ConnId)
    requires ClosedApart(closed, conns) && id in conns
    ensures ClosedApart(closed + [id], conns - {id})
    ensures AllLive(conns) ==> AllLive(conns - {id})
  {
  }

  /** No record was used after it was closed, and the closed ones are those the trace closes. */
  ghost predicate Lived(acts: seq<Act>, closed: seq<ConnId>) {
    Safe(acts) && Closed(acts) == Elems(closed)
  }

  lemma LiveOn(acts: seq<Act>, closed: seq<ConnId>, conns: map<ConnId, Conn>, id: ConnId, closing: bool)
    requires Lived(acts, closed) && ClosedApart(closed, conns) && id in conns
    ensures if closing then Lived(acts + [Close(id)], closed + [id]) else Lived(acts + [Touch(id)], closed)
  {
    assert id !in Elems(closed);
    SafeMore(acts, if closing then Close(id) else Touch(id));
  }

  /** Of the connections in `before`, exactly those no longer live were closed since `gone`. */
  ghost predicate ClosedExactly(gone: seq<ConnId>, before: map<ConnId, Conn>, closed: seq<ConnId>, conns: map<ConnId, Conn>) {
    && gone <= closed
    && conns.Keys <= before.Keys
    && (forall id :: id in closed[|gone|..] <==> id in before && id !in conns)
  }

  lemma ClosedInTwoSteps(
    gone: seq<ConnId>, before: map<ConnId, Conn>, closed1: seq<ConnId>, conns1: map<ConnId, Conn>,
    closed2: seq<ConnId>, conns2: map<ConnId, Conn>)
    requires ClosedExactly(gone, before, closed1, conns1) && ClosedExactly(closed1, conns1, closed2, conns2)
    ensures ClosedExactly(gone, before, closed2, conns2)
  {
    assert closed2[|gone|..] == closed1[|gone|..] + closed2[|closed1|..];
  }

  lemma AllAccountedFor(gone: seq<ConnId>, before: map<ConnId, Conn>, closed: seq<ConnId>, conns: map<ConnId, Conn>)
    requires ClosedExactly(gone, before, closed, conns)
    ensures conns.Keys + Elems(closed[|gone|..]) == before.Keys
  {
  }

  /** The table of records after a handler left one of them as c. */
  function SettleIn(conns: map<ConnId, Conn>, id: ConnId, c: Conn): map<ConnId, Conn> {
    if c.open then conns[id := c] else conns - {id}
  }

  function ClosedAfter(closed: seq<ConnId>, id: ConnId, c: Conn): seq<ConnId> {
    if c.open then closed else closed + [id]
  }

  lemma SettleClosesExactly(
    gone: seq<ConnId>, before: map<ConnId, Conn>, closed: seq<ConnId>, conns: map<ConnId, Conn>, id: ConnId, c: Conn)
    requires ClosedExactly(gone, before, closed, conns) && id in conns
    ensures ClosedExactly(gone, before, ClosedAfter(closed, id, c), SettleIn(conns, id, c))
  {
    assert (closed + [id])[|gone|..] == closed[|gone|..] + [id];
  }

  /** The connection of event r ended up as r leaves it. */
  ghost predicate Became(before: map<ConnId, Conn>, after: map<ConnId, Conn>, r: Ready, w: World) {
    r.id in before && ReactorEcho.Valid(before[r.id]) ==>
      var c := AfterEvent(before[r.id], r, w);
      if c.open then r.id in after && after[r.id] == c else r.id !in after
  }

  function FailedIds(events: seq<Ready>): set<ConnId> {
    set i | 0 <= i < |events| && events[i].failed :: events[i].id
  }

  function ReadIds(events: seq<Ready>): set<ConnId> {
    set i | 0 <= i < |events| && !events[i].failed && events[i].readable :: events[i].id
  }

  function WriteIds(events: seq<Ready>): set<ConnId> {
    set i | 0 <= i < |events| && !events[i].failed && events[i].writable :: events[i].id
  }

  function ReadList(events: seq<Ready>): seq<ConnId> {
    if events == [] then []
    else
      var k := |events| - 1;
      ReadList(events[..k]) + (if !events[k].failed && events[k].readable then [events[k].id] else [])
  }

  function WriteList(events: seq<Ready>): seq<ConnId> {
    if events == [] then []
    else
      var k := |events| - 1;
      WriteList(events[..k]) + (if !events[k].failed && events[k].writable then [events[k].id] else [])
  }

  lemma {:induction false} ListsMatchIds(events: seq<Ready>)
    requires forall i, j :: 0 <= i < j < |events| ==> events[i].id != events[j].id
    ensures Elems(ReadList(events)) == ReadIds(events)
    ensures Elems(WriteList(events)) == WriteIds(events)
    ensures NoRepeats(ReadList(events)) && NoRepeats(WriteList(events))
    decreases |events|
  {
    if events != [] {
      var k := |events| - 1;
      assert events[..k + 1] == events;
      IdsGrow(events, k);
      ListsMatchIds(events[..k]);
      assert forall id :: id in Elems(ReadList(events[..k])) ==> id != events[k].id;
      assert forall id :: id in Elems(WriteList(events[..k])) ==> id != events[k].id;
    }
  }

  lemma IdsGrow(events: seq<Ready>, i: nat)
    requires i < |events|
    ensures
      var r, sofar, next := events[i], events[..i], events[..i + 1];
      && ReadList(next) == ReadList(sofar) + (if !r.failed && r.readable then [r.id] else [])
      && WriteList(next) == WriteList(sofar) + (if !r.failed && r.writable then [r.id] else [])
      && FailedIds(next) == FailedIds(sofar) + (if r.failed then {r.id} else {})
      && ReadIds(next) == ReadIds(sofar) + (if !r.failed && r.readable then {r.id} else {})
      && WriteIds(next) == WriteIds(sofar) + (if !r.failed && r.writable then {r.id} else {})
  {
    var r, sofar, next := events[i], events[..i], events[..i + 1];
    assert next == sofar + [r];
    assert next[..i] == sofar && next[i] == r;
    forall j | 0 <= j < i
      ensures next[j] == sofar[j]
    {
    }
  }

  /** One connection once the ids in failed have been closed, those in toRead read and those in toWrite written. */
  ghost function Handled(c: Conn, id: ConnId, failed: set<ConnId>, toRead: set<ConnId>, toWrite: set<ConnId>, w: World): Conn {
    if !ReactorEcho.Valid(c) then c
    else if id in failed then c.(open := false)
    else
      var c1 := if id in toRead then ReadEvent(c, w.peers(id), 0) else c;
      if id in toWrite then WriteEvent(c1, w.writes(id)) else c1
  }

  ghost function Stage(before: map<ConnId, Conn>, failed: set<ConnId>, toRead: set<ConnId>, toWrite: set<ConnId>, w: World)
    : map<ConnId, Conn>
  {
    map id | id in before && Handled(before[id], id, failed, toRead, toWrite, w).open ::
      Handled(before[id], id, failed, toRead, toWrite, w)
  }

  lemma FailedNow(events: seq<Ready>, i: nat)
    requires i < |events|
    requires forall j, k :: 0 <= j < k < |events| ==> events[j].id != events[k].id
    ensures events[i].id !in FailedIds(events[..i])
    ensures events[i].failed == (events[i].id in FailedIds(events))
  {
  }

  /** What the i-th event adds to the lists and takes from the table. */
  lemma ClassifyStep(before: map<ConnId, Conn>, events: seq<Ready>, i: nat)
    requires Reportable(before, events) && i < |events|
    ensures
      var r, left, left' := events[i], before - FailedIds(events[..i]), before - FailedIds(events[..i + 1]);
      && r.id in left
      && left' == (if r.failed then left - {r.id} else left)
      && r.failed == (r.id in FailedIds(events))
    ensures
      var r, sofar, next := events[i], events[..i], events[..i + 1];
      && ReadList(next) == ReadList(sofar) + (if !r.failed && r.readable then [r.id] else [])
      && WriteList(next) == WriteList(sofar) + (if !r.failed && r.writable then [r.id] else [])
  {
    IdsGrow(events, i);
    FailedNow(events, i);
    RemoveMore(before, FailedIds(events[..i]), events[i].id);
  }

  lemma RemoveMore(before: map<ConnId, Conn>, ids: set<ConnId>, id: ConnId)
    ensures before - (ids + {id}) == before - ids - {id}
    ensures id in before && id !in ids ==> id in before - ids
  {
  }

  lemma StageFailed(before: map<ConnId, Conn>, failed: set<ConnId>, w: World)
    requires AllLive(before)
    ensures before - failed == Stage(before, failed, {}, {}, w)
  {
  }

  ghost predicate AllLive(conns: map<ConnId, Conn>) {
    forall id :: id in conns ==> conns[id].open && ReactorEcho.Valid(conns[id])
  }

  /** A stage that differs in the handling of one connection only. */
  lemma StageChangesOne(
    before: map<ConnId, Conn>, failed: set<ConnId>, toRead: set<ConnId>, toWrite: set<ConnId>,
    toRead': set<ConnId>, toWrite': set<ConnId>, id: ConnId, w: World)
    requires AllLive(before) && id in before && id !in failed + toRead + toWrite
    requires toRead' - {id} == toRead && toWrite' - {id} == toWrite
    ensures
      var now := Stage(before, failed, toRead, toWrite, w);
      && id in now && now[id] == before[id]
      && Stage(before, failed, toRead', toWrite', w) ==
         SettleIn(now, id, Handled(before[id], id, failed, toRead', toWrite', w))
  {
    forall k | k in before && k != id
      ensures Handled(before[k], k, failed, toRead', toWrite', w) == Handled(before[k], k, failed, toRead, toWrite, w)
    {
      assert k in toRead' <==> k in toRead;
      assert k in toWrite' <==> k in toWrite;
    }
    assert Handled(before[id], id, failed, toRead, toWrite, w) == before[id];
  }

  lemma StageRead(before: map<ConnId, Conn>, failed: set<ConnId>, ids: seq<ConnId>, i: nat, w: World)
    requires AllLive(before) && i < |ids| && ids[i] in before && ids[i] !in failed && NoRepeats(ids)
    ensures
      var now := Stage(before, failed, Elems(ids[..i]), {}, w);
      && ids[i] in now && now[ids[i]] == before[ids[i]]
      && Stage(before, failed, Elems(ids[..i + 1]), {}, w) ==
         SettleIn(now, ids[i], ReadEvent(before[ids[i]], w.peers(ids[i]), 0))
  {
    ElemsMore(ids, i);
    StageChangesOne(before, failed, Elems(ids[..i]), {}, Elems(ids[..i + 1]), {}, ids[i], w);
  }

  lemma StageWrite(before: map<ConnId, Conn>, failed: set<ConnId>, toRead: set<ConnId>, ids: seq<ConnId>, i: nat, w: World)
    requires AllLive(before) && i < |ids| && ids[i] in before && ids[i] !in failed && ids[i] !in toRead && NoRepeats(ids)
    ensures
      var now := Stage(before, failed, toRead, Elems(ids[..i]), w);
      && ids[i] in now && now[ids[i]] == before[ids[i]]
      && Stage(before, failed, toRead, Elems(ids[..i + 1]), w) ==
         SettleIn(now, ids[i], WriteEvent(before[ids[i]], w.writes(ids[i])))
  {
    ElemsMore(ids, i);
    StageChangesOne(before, failed, toRead, Elems(ids[..i]), toRead, Elems(ids[..i + 1]), ids[i], w);
  }

  /** What epoll may report: each registered connection at most once, with events within its mask. */
  ghost predicate Reportable(conns: map<ConnId, Conn>, events: seq<Ready>) {
    && (forall i :: 0 <= i < |events| ==> events[i].id in conns)
    && (forall i, j :: 0 <= i < j < |events| ==> events[i].id != events[j].id)
    && (forall i :: 0 <= i < |events| && events[i].readable ==> conns[events[i].id].interest.In?)
    && (forall i :: 0 <= i < |events| && events[i].writable ==> conns[events[i].id].interest.Out?)
  }

  /** A connection listed for one handler was not closed by an earlier step and is on no other list. */
  lemma ListsAreApart(conns: map<ConnId, Conn>, events: seq<Ready>)
    requires Reportable(conns, events)
    ensures forall id :: id in ReadIds(events) ==> id in conns && id !in FailedIds(events)
    ensures forall id :: id in WriteIds(events) ==> id in conns && id !in FailedIds(events) && id !in ReadIds(events)
  {
  }

  lemma StageMatchesEvents(before: map<ConnId, Conn>, events: seq<Ready>, w: World)
    requires forall i, j :: 0 <= i < j < |events| ==> events[i].id != events[j].id
    requires forall id :: id in before ==> before[id].open
    ensures
      var after := Stage(before, FailedIds(events), ReadIds(events), WriteIds(events), w);
      && (forall i :: 0 <= i < |events| ==> Became(before, after, events[i], w))
      && (forall id :: id in before && (forall i :: 0 <= i < |events| ==> events[i].id != id) ==>
            id in after && after[id] == before[id])
  {
    forall i | 0 <= i < |events|
      ensures events[i].failed <==> events[i].id in FailedIds(events)
      ensures !events[i].failed && events[i].readable <==> events[i].id in ReadIds(events)
      ensures !events[i].failed && events[i].writable <==> events[i].id in WriteIds(events)
    {
    }
  }

  /** Every descriptor of a batch went one way or the other. */
  ghost predicate Split(fds: seq<ConnId>, added: seq<ConnId>, rejected: seq<ConnId>) {
    multiset(added) + multiset(rejected) == multiset(fds)
  }

  lemma SplitMore(fds: seq<ConnId>, i: nat, added: seq<ConnId>, rejected: seq<ConnId>)
    requires i < |fds| && Split(fds[..i], added, rejected)
    requires forall j, k :: 0 <= j < k < |fds| ==> fds[j] != fds[k]
    ensures Split(fds[..i + 1], added + [fds[i]], rejected) && Split(fds[..i + 1], added, rejected + [fds[i]])
    ensures fds[i] !in added
  {
    assert fds[..i + 1] == fds[..i] + [fds[i]];
    assert forall id :: id in added ==> id in multiset(fds[..i]);
  }

  /** Only set up connections were added, and one that could be set up was rejected only for want of a slot. */
  ghost predicate Justified(added: seq<ConnId>, rejected: seq<ConnId>, setups: ConnId -> Setup, slots: seq<Slot>) {
    && (forall id :: id in added ==> setups(id).Succeeds?)
    && (forall id :: id in rejected && setups(id).Succeeds? ==> Free !in slots)
  }

  lemma JustifiedMore(
    added: seq<ConnId>, rejected: seq<ConnId>, setups: ConnId -> Setup,
    slots: seq<Slot>, slots': seq<Slot>, fd: ConnId, ok: bool)
    requires Justified(added, rejected, setups, slots) && (Free in slots' ==> Free in slots)
    requires ok <==> setups(fd).Succeeds? && Free in slots
    ensures if ok then Justified(added + [fd], rejected, setups, slots') else Justified(added, rejected + [fd], setups, slots')
  {
  }

  lemma NotAddedYet(fds: seq<ConnId>, i: nat, conns: map<ConnId, Conn>, closed: seq<ConnId>, added: seq<ConnId>)
    requires i < |fds| && fds[i] !in conns && fds[i] !in closed && fds[i] !in added
    ensures fds[i] !in WithFresh(conns, added)
  {
  }

  function WithFresh(conns: map<ConnId, Conn>, added: seq<ConnId>): map<ConnId, Conn> {
    conns + (map id | id in added :: Fresh)
  }

  lemma WithFreshMore(conns: map<ConnId, Conn>, added: seq<ConnId>, id: ConnId)
    ensures WithFresh(conns, added + [id]) == WithFresh(conns, added)[id := Fresh]
  {
  }

  /** Each live connection has exactly one slot, and every used slot a live connection. */
  ghost predicate TableValid(slots: seq<Slot>, conns: map<ConnId, Conn>) {
    && (forall i :: 0 <= i < |slots| && slots[i].Used? ==> slots[i].id in conns)
    && (forall i, j :: 0 <= i < j < |slots| && slots[i].Used? ==> slots[j] != slots[i])
    && (forall id :: id in conns ==> Used(id) in slots)
  }

  lemma AddToTable(slots: seq<Slot>, conns: map<ConnId, Conn>, i: nat, id: ConnId)
    requires TableValid(slots, conns) && i < |slots| && slots[i].Free? && id !in conns
    ensures TableValid(slots[i := Used(id)], conns[id := Fresh])
  {
    var slots' := slots[i := Used(id)];
    assert slots'[i] == Used(id);
    forall other | other in conns
      ensures Used(other) in slots'
    {
      var j :| 0 <= j < |slots| && slots[j] == Used(other);
      assert slots'[j] == Used(other);
    }
  }

  lemma OnlySlot(slots: seq<Slot>, conns: map<ConnId, Conn>, i: nat, id: ConnId)
    requires TableValid(slots, conns) && i < |slots| && slots[i] == Used(id)
    ensures forall j :: 0 <= j < |slots| && j != i ==> slots[j] != Used(id)
  {
  }

  lemma RemoveFromTable(slots: seq<Slot>, conns: map<ConnId, Conn>, i: nat, id: ConnId)
    requires TableValid(slots, conns) && i < |slots| && slots[i] == Used(id)
    ensures TableValid(slots[i := Free], conns - {id})
  {
    var slots' := slots[i := Free];
    forall other | other in conns - {id}
      ensures Used(other) in slots'
    {
      var j :| 0 <= j < |slots| && slots[j] == Used(other);
      assert slots'[j] == Used(other);
    }
  }
}
