/** What a thread does to its connection records, in order: the trace that lifetime statements speak about. */
module ReactorActs {
  type ConnId = nat

  function Elems(ids: seq<ConnId>): set<ConnId> {
    set id | id in ids
  }

  predicate NoRepeats(ids: seq<ConnId>) {
    forall i, j :: 0 <= i < j < |ids| ==> ids[i] != ids[j]
  }

  lemma ElemsMore(ids: seq<ConnId>, i: nat)
    requires i < |ids|
    requires NoRepeats(ids)
    ensures ids[i] !in Elems(ids[..i]) && Elems(ids[..i + 1]) == Elems(ids[..i]) + {ids[i]}
  {
    assert ids[..i + 1] == ids[..i] + [ids[i]];
  }

  datatype Act = Touch(id: ConnId) | Close(id: ConnId)

  /** The trace `now` is `before`, continued by `acts`. */
  ghost predicate Follows(before: seq<Act>, now: seq<Act>, acts: seq<Act>) {
    now == before + acts
  }

  lemma FollowsOn(a: seq<Act>, b: seq<Act>, c: seq<Act>, ab: seq<Act>, bc: seq<Act>)
    requires Follows(a, b, ab) && Follows(b, c, bc)
    ensures Follows(a, c, ab + bc)
  {
  }

  /** A handler touches a record, and possibly closes it. */
  function OneAct(id: ConnId, closes: bool): seq<Act> {
    [Touch(id)] + (if closes then [Close(id)] else [])
  }

  /** A step of the pass: each listed connection is touched, and closed if it is in closing. */
  function Acts(ids: seq<ConnId>, closing: set<ConnId>): seq<Act> {
    if ids == [] then []
    else
      var k := |ids| - 1;
      Acts(ids[..k], closing) + OneAct(ids[k], ids[k] in closing)
  }

  /** The trace so far is that before the step, and then that of the first i connections listed. */
  ghost predicate InStep(now: seq<Act>, before: seq<Act>, ids: seq<ConnId>, i: nat, closing: set<ConnId>) {
    i <= |ids| && now == before + Acts(ids[..i], closing)
  }

  lemma StepOn(now: seq<Act>, before: seq<Act>, ids: seq<ConnId>, i: nat, closing: set<ConnId>, closes: bool)
    requires InStep(now, before, ids, i, closing) && i < |ids| && closes == (ids[i] in closing)
    ensures InStep(now + OneAct(ids[i], closes), before, ids, i + 1, closing)
  {
    assert ids[..i + 1][..i] == ids[..i];
    assert now + OneAct(ids[i], closes) == before + (Acts(ids[..i], closing) + OneAct(ids[i], closes));
  }

  lemma StepDone(now: seq<Act>, before: seq<Act>, ids: seq<ConnId>, closing: set<ConnId>)
    requires InStep(now, before, ids, |ids|, closing)
    ensures Follows(before, now, Acts(ids, closing))
  {
    assert ids[..|ids|] == ids;
  }

  /** No record is touched or closed again once it has been closed and freed. */
  predicate Safe(acts: seq<Act>) {
    forall i, j :: 0 <= i < j < |acts| && acts[i].Close? ==> acts[j].id != acts[i].id
  }

  function Touched(acts: seq<Act>): set<ConnId> {
    set i | 0 <= i < |acts| :: acts[i].id
  }

  function Closed(acts: seq<Act>): set<ConnId> {
    set i | 0 <= i < |acts| && acts[i].Close? :: acts[i].id
  }

  lemma Concat(a: seq<Act>, b: seq<Act>)
    ensures Touched(a + b) == Touched(a) + Touched(b)
    ensures Closed(a + b) == Closed(a) + Closed(b)
    ensures Safe(a + b) <==> Safe(a) && Safe(b) && Closed(a) !! Touched(b)
  {
    var c := a + b;
    assert forall i :: 0 <= i < |a| ==> c[i] == a[i];
    assert forall i :: 0 <= i < |b| ==> c[|a| + i] == b[i];
    assert forall i :: |a| <= i < |c| ==> c[i] == b[i - |a|];
    if Safe(c) {
      forall i, j | 0 <= i < j < |a| && a[i].Close?
        ensures a[j].id != a[i].id
      {
        assert c[i].Close? && c[j].id != c[i].id;
      }
      forall i, j | 0 <= i < |a| && 0 <= j < |b| && a[i].Close?
        ensures a[i].id != b[j].id
      {
        assert c[i].Close? && c[|a| + j].id != c[i].id;
      }
      forall i, j | 0 <= i < j < |b| && b[i].Close?
        ensures b[j].id != b[i].id
      {
        assert c[|a| + i].Close? && c[|a| + j].id != c[|a| + i].id;
      }
    } else {
      var i, j :| 0 <= i < j < |c| && c[i].Close? && c[j].id == c[i].id;
      if i < |a| <= j {
        assert a[i].id in Closed(a) && b[j - |a|].id in Touched(b);
      } else if j < |a| {
        assert a[i].Close? && a[j].id == a[i].id;
      } else {
        assert b[i - |a|].Close? && b[j - |a|].id == b[i - |a|].id;
      }
    }
  }

  lemma {:induction false} ActsAreSafe(ids: seq<ConnId>, closing: set<ConnId>)
    requires NoRepeats(ids)
    ensures Safe(Acts(ids, closing))
    ensures Touched(Acts(ids, closing)) == Elems(ids)
    ensures Closed(Acts(ids, closing)) == Elems(ids) * closing
    decreases |ids|
  {
    if ids != [] {
      var k := |ids| - 1;
      var id := ids[k];
      var before := Acts(ids[..k], closing);
      var last := OneAct(id, id in closing);
      ActsAreSafe(ids[..k], closing);
      assert ids[..k + 1] == ids;
      ElemsMore(ids, k);
      assert Touched(last) == {id} by {
        assert last[0].id == id;
      }
      assert Closed(last) == {id} * closing by {
        if id in closing {
          assert last[1] == Close(id);
        }
      }
      Concat(before, last);
      assert Acts(ids, closing) == before + last;
    }
  }

  /** One more act on a record that has not been closed. */
  lemma SafeMore(acts: seq<Act>, a: Act)
    requires Safe(acts) && a.id !in Closed(acts)
    ensures Safe(acts + [a])
    ensures Closed(acts + [a]) == Closed(acts) + (if a.Close? then {a.id} else {})
  {
    assert [a][0] == a;
    Concat(acts, [a]);
  }
}
