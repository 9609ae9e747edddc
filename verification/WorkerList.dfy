/** A hybrid worker's singly linked connection list: insertion at the head, unlinking through the previous link. */
module WorkerList {

  /** The list without x, the others in their order. */
  function Without<T(==)>(xs: seq<T>, x: T): (r: seq<T>)
    ensures x !in r
    ensures forall y :: y in r ==> y in xs
  {
    if xs == [] then []
    else if xs[0] == x then Without(xs[1..], x)
    else [xs[0]] + Without(xs[1..], x)
  }

  lemma {:induction false} WithoutAbsent<T>(xs: seq<T>, x: T)
    requires x !in xs
    ensures Without(xs, x) == xs
    decreases xs
  {
    if xs != [] {
      WithoutAbsent(xs[1..], x);
    }
  }

  lemma {:induction false} WithoutAt<T>(xs: seq<T>, k: nat)
    requires k < |xs|
    requires forall i, j :: 0 <= i < j < |xs| ==> xs[i] != xs[j]
    ensures Without(xs, xs[k]) == xs[..k] + xs[k + 1..]
    decreases xs
  {
    if k == 0 {
      WithoutAbsent(xs[1..], xs[0]);
    } else {
      WithoutAt(xs[1..], k - 1);
      assert xs[1..][..k - 1] == xs[1..k] && xs[..k] == [xs[0]] + xs[1..k];
    }
  }

  datatype ListOp<T> = Add(x: T) | FailedAdd(x: T) | Remove(x: T)

  function Apply<T(==)>(xs: seq<T>, op: ListOp<T>): seq<T> {
    match op
    case Add(x) => [x] + xs
    case FailedAdd(_) => xs
    case Remove(x) => Without(xs, x)
  }

  function ApplyAll<T(==)>(ops: seq<ListOp<T>>): seq<T>
    decreases |ops|
  {
    if ops == [] then [] else Apply(ApplyAll(ops[..|ops| - 1]), ops[|ops| - 1])
  }

  /** The elements added and not removed afterwards, latest first; `removed` are those removed later still. */
  function Survivors<T(==)>(ops: seq<ListOp<T>>, removed: set<T>): seq<T>
    decreases |ops|
  {
    if ops == [] then []
    else
      var before := ops[..|ops| - 1];
      match ops[|ops| - 1]
      case Add(x) => (if x in removed then [] else [x]) + Survivors(before, removed)
      case FailedAdd(_) => Survivors(before, removed)
      case Remove(x) => Survivors(before, removed + {x})
  }

  function Keep<T(==)>(xs: seq<T>, removed: set<T>): seq<T> {
    if xs == [] then [] else (if xs[0] in removed then [] else [xs[0]]) + Keep(xs[1..], removed)
  }

  lemma {:induction false} KeepWithout<T>(xs: seq<T>, x: T, removed: set<T>)
    ensures Keep(Without(xs, x), removed) == Keep(xs, removed + {x})
    decreases xs
  {
    if xs != [] {
      KeepWithout(xs[1..], x, removed);
    }
  }

  lemma {:induction false} KeepAll<T>(xs: seq<T>)
    ensures Keep(xs, {}) == xs
    decreases xs
  {
    if xs != [] {
      KeepAll(xs[1..]);
    }
  }

  lemma {:induction false} SurvivorsAreKept<T>(ops: seq<ListOp<T>>, removed: set<T>)
    ensures Keep(ApplyAll(ops), removed) == Survivors(ops, removed)
    decreases |ops|
  {
    if ops != [] {
      var before, last := ops[..|ops| - 1], ops[|ops| - 1];
      match last
      case Add(x) =>
        SurvivorsAreKept(before, removed);
        assert ([x] + ApplyAll(before))[1..] == ApplyAll(before);
      case FailedAdd(_) => SurvivorsAreKept(before, removed);
      case Remove(x) =>
        SurvivorsAreKept(before, removed + {x});
        KeepWithout(ApplyAll(before), x, removed);
    }
  }

  /** After any sequence of operations the list holds the added and not yet removed connections, newest first. */
  lemma ListIsAddedMinusRemoved<T>(ops: seq<ListOp<T>>)
    ensures ApplyAll(ops) == Survivors(ops, {})
  {
    SurvivorsAreKept(ops, {});
    KeepAll(ApplyAll(ops));
  }

  class MtNode {
    var fd: int
    var next: MtNode?
    var isRemoving: bool

    constructor (fd: int)
      ensures this.fd == fd && next == null && !isRemoving
    {
      this.fd, next, isRemoving := fd, null, false;
    }
  }

  ghost function Link(list: seq<MtNode>, i: nat): MtNode? {
    if i < |list| then list[i] else null
  }

  /** The nodes of a list with the k-th one cut out. */
  lemma SplicedAt(before: seq<MtNode>, k: nat)
    requires k < |before| && forall i, j :: 0 <= i < j < |before| ==> before[i] != before[j]
    ensures
      var after := before[..k] + before[k + 1..];
      && |after| == |before| - 1
      && (forall i :: 0 <= i < |after| ==> after[i] == (if i < k then before[i] else before[i + 1]) && after[i] != before[k])
      && (forall i, j :: 0 <= i < j < |after| ==> after[i] != after[j])
  {
  }

  /** Cutting a node out of the sequence matches redirecting the one link that led to it. */
  lemma SplicedLinks(before: seq<MtNode>, k: nat)
    requires k < |before| && forall i, j :: 0 <= i < j < |before| ==> before[i] != before[j]
    requires k > 0 ==> before[k - 1].next == Link(before, k + 1)
    requires forall j :: 0 <= j < |before| && j != k && j != k - 1 ==> before[j].next == Link(before, j + 1)
    ensures
      var after := before[..k] + before[k + 1..];
      forall i :: 0 <= i < |after| ==> after[i].next == Link(after, i + 1)
  {
    SplicedAt(before, k);
    var after := before[..k] + before[k + 1..];
    forall i | 0 <= i < |after|
      ensures after[i].next == Link(after, i + 1)
    {
      var j := if i < k then i else i + 1;
      assert after[i] == before[j];
    }
  }

  class Worker {
    var connections: MtNode?
    /** The nodes in list order. */
    ghost var list: seq<MtNode>

    /** Following the links visits every node of the list once and then stops. */
    ghost predicate Linked()
      reads this, list
    {
      && connections == Link(list, 0)
      && (forall i :: 0 <= i < |list| ==> list[i].next == Link(list, i + 1))
      && (forall i, j :: 0 <= i < j < |list| ==> list[i] != list[j])
    }

    ghost predicate Valid()
      reads this, list
    {
      Linked() && forall n :: n in list ==> !n.isRemoving
    }

    constructor ()
      ensures Valid() && list == []
    {
      connections, list := null, [];
    }

    /** mt_add_connection_to_worker; epollOk tells whether registering the descriptor succeeds. */
    method AddConnection(conn: MtNode, epollOk: bool)
      requires Valid() && conn !in list && !conn.isRemoving
      modifies this, list, conn
      ensures Valid()
      ensures list == Apply(old(list), if epollOk then Add(conn) else FailedAdd(conn))
      ensures conn.isRemoving <==> !epollOk
    {
      conn.next := connections;
      connections := conn;
      if !epollOk {
        connections := conn.next;
        WithoutAbsent(list, conn);
        RemoveConnection(conn);
        return;
      }
      list := [conn] + list;
      assert forall i :: 1 <= i < |list| ==> list[i] == old(list)[i - 1];
    }

    /** The walk of mt_remove_connection_safe: prev is the node whose link leads to current. */
    method Find(conn: MtNode) returns (prev: MtNode?, current: MtNode?, ghost k: nat)
      requires Linked()
      ensures k <= |list| && current == Link(list, k)
      ensures prev == if k == 0 then null else list[k - 1]
      ensures current == null || current == conn
      ensures conn in list <==> current == conn
    {
      prev, current, k := null, connections, 0;
      while current != null && current != conn
        invariant k <= |list| && current == Link(list, k)
        invariant prev == if k == 0 then null else list[k - 1]
        invariant forall i :: 0 <= i < k ==> list[i] != conn
        decreases |list| - k
      {
        prev := current;
        current := current.next;
        k := k + 1;
      }
    }

    /** The relinking: the link that led to conn now leads past it. */
    method Relink(prev: MtNode?, conn: MtNode, ghost k: nat)
      requires Linked() && k < |list| && conn == list[k]
      requires prev == if k == 0 then null else list[k - 1]
      modifies this`connections, list`next
      ensures connections == if k == 0 then Link(list, 1) else old(connections)
      ensures conn.next == null
      ensures k > 0 ==> list[k - 1].next == Link(list, k + 1)
      ensures forall j :: 0 <= j < |list| && j != k && j != k - 1 ==> list[j].next == Link(list, j + 1)
    {
      if prev == null {
        connections := conn.next;
      } else {
        prev.next := conn.next;
      }
      conn.next := null;
    }

    method Unlink(prev: MtNode?, conn: MtNode, ghost k: nat)
      requires Linked() && k < |list| && conn == list[k]
      requires prev == if k == 0 then null else list[k - 1]
      modifies this, list`next
      ensures Linked() && list == old(list)[..k] + old(list)[k + 1..]
      ensures conn.next == null
    {
      Relink(prev, conn, k);
      SplicedAt(list, k);
      SplicedLinks(list, k);
      list := list[..k] + list[k + 1..];
    }

    /** The part of mt_remove_connection_safe under the list lock. */
    method Detach(conn: MtNode)
      requires Linked()
      modifies this, list`next
      ensures Linked() && list == Without(old(list), conn)
    {
      var prev, current, k := Find(conn);
      if current == conn {
        WithoutAt(list, k);
        Unlink(prev, conn, k);
      } else {
        WithoutAbsent(list, conn);
      }
    }

    /** mt_remove_connection_safe; with the record kept, a second removal finds is_removing set and does nothing. */
    method RemoveConnection(conn: MtNode)
      requires Valid()
      modifies this, list, conn
      ensures Valid()
      ensures list == if old(conn.isRemoving) then old(list) else Apply(old(list), Remove(conn))
      ensures conn.isRemoving
      ensures forall n :: n in old(list) && n != conn ==> n.fd == old(n.fd)
    {
      if conn.isRemoving {
        return;
      }
      conn.isRemoving := true;
      if conn.fd >= 0 {
        conn.fd := -1;
      }
      assert Linked();
      Detach(conn);
    }
  }
}
