/**
 Why the interest mask matters: the order in which one pass of the event loop touches and closes
 connection records, for any events whatsoever, and exactly when that order is safe. That the event loop
 does follow this order is part of the contracts of ReactorThread.HandleEvents and RunPass.
 */
module ReactorLifetime {
  import opened ReactorActs
  import opened ReactorEcho
  import opened ReactorThread

  /**
   With each connection reported at most once, a pass is free of use-after-close exactly when no connection
   whose read handler closes it was reported writable as well.
   */
  lemma PassIsSafeIff(events: seq<Ready>, readCloses: set<ConnId>, writeCloses: set<ConnId>)
    requires forall i, j :: 0 <= i < j < |events| ==> events[i].id != events[j].id
    ensures Safe(PassActs(events, readCloses, writeCloses)) <==>
            forall i :: 0 <= i < |events| && events[i].readable && events[i].writable && !events[i].failed ==>
              events[i].id !in readCloses
  {
    var classify := Acts(AllIds(events), FailedIds(events));
    var reading := Acts(ReadList(events), readCloses);
    var writing := Acts(WriteList(events), writeCloses);
    ListsMatchIds(events);
    ActsAreSafe(AllIds(events), FailedIds(events));
    ActsAreSafe(ReadList(events), readCloses);
    ActsAreSafe(WriteList(events), writeCloses);
    Concat(classify, reading);
    Concat(classify + reading, writing);
    IdsByEvent(events);
  }

  predicate DistinctSlots(slots: seq<Slot>) {
    forall i, j :: 0 <= i < j < |slots| && slots[i].Used? ==> slots[j] != slots[i]
  }

  /** The sweep on its own is safe and touches exactly what has a slot. */
  lemma {:induction false} SweepIsSafe(slots: seq<Slot>, w: World)
    requires DistinctSlots(slots)
    ensures Safe(SweepActs(slots, w))
    ensures Touched(SweepActs(slots, w)) == set s | s in slots && s.Used? :: s.id
    ensures Closed(SweepActs(slots, w)) <= Touched(SweepActs(slots, w))
  {
    if slots != [] {
      var k := |slots| - 1;
      var before, last := SweepActs(slots[..k], w), SlotActs(slots[k], w);
      SweepIsSafe(slots[..k], w);
      Concat(before, last);
      assert slots == slots[..k] + [slots[k]];
      if slots[k].Used? {
        var id := slots[k].id;
        assert last[0] == Touch(id) && Touched(last) == {id};
        assert id !in Touched(before);
        assert Closed(last) <= {id};
      }
    }
  }

  /**
   With the outcomes of the real handlers, and the timer sweep over a table that no longer holds what the
   handlers closed: the pass is safe exactly when no connection reported in both directions is closed by
   its read handler.
   */
  lemma WholePassIsSafeIff(conns: map<ConnId, Conn>, events: seq<Ready>, slots: seq<Slot>, w: World)
    requires forall i, j :: 0 <= i < j < |events| ==> events[i].id != events[j].id
    requires forall i :: 0 <= i < |events| ==> events[i].id in conns && ReactorEcho.Valid(conns[events[i].id])
    requires DistinctSlots(slots)
    requires forall s :: s in slots && s.Used? ==> s.id !in Closed(PassActs(events, ReadCloses(conns, w), WriteCloses(conns, w)))
    ensures
      Safe(PassActs(events, ReadCloses(conns, w), WriteCloses(conns, w)) + SweepActs(slots, w)) <==>
      forall i :: 0 <= i < |events| && events[i].readable && events[i].writable && !events[i].failed ==>
        ReadEvent(conns[events[i].id], w.peers(events[i].id), 0).open
  {
    PassIsSafeIff(events, ReadCloses(conns, w), WriteCloses(conns, w));
    SweepIsSafe(slots, w);
    Concat(PassActs(events, ReadCloses(conns, w), WriteCloses(conns, w)), SweepActs(slots, w));
  }

  /** Masks that ask for exactly one direction make every pass safe, whatever the handlers close. */
  lemma MasksMakePassesSafe(
    conns: map<ConnId, Conn>, events: seq<Ready>, readCloses: set<ConnId>, writeCloses: set<ConnId>)
    requires Reportable(conns, events)
    ensures Safe(PassActs(events, readCloses, writeCloses))
  {
    PassIsSafeIff(events, readCloses, writeCloses);
  }

  /** Reported in both directions at once, a connection is used after it was freed. */
  lemma BothDirectionsAreUnsafe(id: ConnId)
    ensures !Safe(PassActs([Ready(id, false, true, true)], {id}, {}))
  {
    var events := [Ready(id, false, true, true)];
    PassIsSafeIff(events, {id}, {});
    assert events[0].readable && events[0].writable && !events[0].failed;
  }
}
