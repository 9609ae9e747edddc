/**
 The proactor server: worker threads take operations from a LIFO stack and submit them, the kernel
 completes them in any order, and one dispatcher thread runs the completion handlers, accepts connections
 and removes them.

 A connection generation is a fresh identity for one connection_ctx and its socket; descriptors are
 reused. An operation names a descriptor, and acts on the socket that descriptor denotes when it is
 submitted, which need not be that of its own generation. Buffers of a removed generation stay its own:
 reuse of freed memory is not part of this model.
 */
module Proactor {
  import opened Bytes
  import opened Sums
  import opened Words

  const BUFFER_SIZE := 4096
  const EAGAIN := 11

  type OpId = nat
  type Gen = nat
  type Fd = int

  datatype Kind = Read | Write

  /** gen identifies the handler, and through its user_data the connection context. */
  datatype Op = Op(kind: Kind, fd: Fd, gen: Gen, size: nat)

  datatype Ctx = Ctx(
    fd: Fd,
    readBuf: seq<byte>,
    writeBuf: seq<byte>,
    // history: the chunks this generation's operations have read, and the buffers they have written,
    // on whatever socket
    chunks: seq<seq<byte>>,
    echoes: seq<seq<byte>>)

  /** What a submitted operation acts on: the socket of a connection, or something that is none. */
  datatype Socket = Connection(gen: Gen) | Elsewhere

  /** A chunk read from a socket, or a buffer written to it, by an operation of generation gen. */
  datatype Transfer = Transfer(socket: Socket, gen: Gen, kind: Kind, data: seq<byte>)

  datatype Worker = Waiting | Holding(op: OpId)

  /** res is what the kernel reports: a byte count, or a negated error number. */
  datatype Completion = Completion(op: OpId, res: int)

  datatype State = State(
    maxConnections: nat,
    connections: map<Fd, Gen>,
    ctxs: seq<Ctx>,               // by generation
    ops: seq<Op>,                 // by operation, in order of allocation
    stack: seq<OpId>,             // pending_ops, top first
    workers: seq<Worker>,
    kernel: map<OpId, Socket>,    // submitted, not completed, and what they act on
    completed: seq<Completion>,   // completed, not fetched
    batch: seq<Completion>,       // fetched by the dispatcher, not handled
    finishing: seq<OpId>,         // handled, about to be freed (at most one)
    freed: seq<OpId>,
    traffic: seq<Transfer>)       // history: everything that went over sockets, in order

  datatype Submit = Submitted | SubmitAgain | SubmitFails

  datatype Move =
    | WorkerTake(w: nat)
    | WorkerSubmit(w: nat, outcome: Submit)
    | KernelReads(op: OpId, data: seq<byte>)
    | KernelWrites(op: OpId, n: nat)
    | KernelFails(op: OpId, error: nat)
    | Fetch(n: nat)
    | Dispatch(alloc: bool)
    | Free
    | Connect(fd: Fd, handlerAlloc: bool, opAlloc: bool)
    | HangUp(fd: Fd)

  function Initial(workers: nat, maxConnections: nat): State {
    State(maxConnections, map[], [], [], [], seq(workers, _ => Waiting), map[], [], [], [], [], [])
  }

  predicate Enabled(s: State, m: Move) {
    match m
    case WorkerTake(w) => w < |s.workers| && s.workers[w].Waiting? && s.stack != []
    case WorkerSubmit(w, _) => w < |s.workers| && s.workers[w].Holding?
    case KernelReads(o, data) => o in s.kernel && o < |s.ops| && s.ops[o].kind.Read? && |data| <= s.ops[o].size
    case KernelWrites(o, n) => o in s.kernel && o < |s.ops| && s.ops[o].kind.Write? && n <= s.ops[o].size
    case KernelFails(o, error) => o in s.kernel && error > 0
    case Fetch(n) => s.batch == [] && s.finishing == [] && n <= 64 && n <= |s.completed|
    case Dispatch(_) => s.batch != [] && s.finishing == []
    case Free => |s.finishing| == 1
    case Connect(_, _, _) => s.batch == [] && s.finishing == []
    case HangUp(_) => s.batch == [] && s.finishing == []
  }

  // ---- operations on the shared state ----

  /** proactor_submit_operation */
  function PushOp(s: State, o: OpId): State {
    s.(stack := [o] + s.stack)
  }

  /** Allocate an operation and submit it; nothing happens when malloc fails. */
  function SubmitNew(s: State, op: Op, alloc: bool): State {
    if alloc then PushOp(s.(ops := s.ops + [op]), |s.ops|) else s
  }

  function SubmitNextRead(s: State, g: Gen, alloc: bool): State
    requires g < |s.ctxs|
  {
    SubmitNew(s, Op(Read, s.ctxs[g].fd, g, BUFFER_SIZE - 1), alloc)
  }

  /** proactor_remove_connection */
  function RemoveConnection(s: State, fd: Fd): State {
    s.(connections := s.connections - {fd})
  }

  /** proactor_add_connection and setup_new_connection */
  function AddConnection(s: State, fd: Fd, handlerAlloc: bool, opAlloc: bool): State {
    if fd < 0 || fd >= s.maxConnections || fd in s.connections then s
    else
      var g := |s.ctxs|;
      var zeros := seq(BUFFER_SIZE, _ => 0);
      var s1 := s.(ctxs := s.ctxs + [Ctx(fd, zeros, zeros, [], [])], connections := s.connections[fd := g]);
      if !handlerAlloc then RemoveConnection(s1, fd) else SubmitNextRead(s1, g, opAlloc)
  }

  // ---- the kernel ----

  /** io_submit looks the descriptor up at the moment of submission. */
  function Resolve(s: State, fd: Fd): Socket {
    if fd in s.connections then Connection(s.connections[fd]) else Elsewhere
  }

  predicate Connected(s: State, g: Gen) {
    exists fd :: fd in s.connections && s.connections[fd] == g
  }

  function Overwrite(buf: seq<byte>, data: seq<byte>): (r: seq<byte>)
    ensures |r| == |buf|
  {
    if |data| <= |buf| then data + buf[|data|..] else buf
  }

  function KernelRead(s: State, o: OpId, data: seq<byte>): State
    requires o in s.kernel && o < |s.ops| && s.ops[o].gen < |s.ctxs|
  {
    var g := s.ops[o].gen;
    var c := s.ctxs[g];
    var c' := c.(
      readBuf := Overwrite(c.readBuf, data),
      chunks := if data == [] then c.chunks else c.chunks + [data]);
    s.(kernel := s.kernel - {o}, completed := s.completed + [Completion(o, |data|)], ctxs := s.ctxs[g := c'],
       traffic := if data == [] then s.traffic else s.traffic + [Transfer(s.kernel[o], g, Read, data)])
  }

  /** The buffer is read when the write is carried out, whatever it holds by then. */
  function KernelWrite(s: State, o: OpId, n: nat): State
    requires o in s.kernel && o < |s.ops| && s.ops[o].gen < |s.ctxs|
  {
    var g := s.ops[o].gen;
    var c := s.ctxs[g];
    var data := c.writeBuf[..Min(s.ops[o].size, |c.writeBuf|)];
    s.(kernel := s.kernel - {o}, completed := s.completed + [Completion(o, n)],
       ctxs := s.ctxs[g := c.(echoes := c.echoes + [data])],
       traffic := s.traffic + [Transfer(s.kernel[o], g, Write, data)])
  }

  // ---- the dispatcher ----

  /** handle_read_completion for a positive byte count */
  function HandleRead(s: State, g: Gen, bytes: nat, alloc: bool): State
    requires g < |s.ctxs|
  {
    var c := s.ctxs[g];
    var safe := if bytes < BUFFER_SIZE then bytes else BUFFER_SIZE - 1;
    var readBuf := if safe < |c.readBuf| then c.readBuf[safe := 0] else c.readBuf;
    var total := |ECHO_PREFIX| + safe;
    var s1 := s.(ctxs := s.ctxs[g := c.(readBuf := readBuf)]);
    if total < BUFFER_SIZE then
      var echo := ECHO_PREFIX + readBuf[..Min(safe, |readBuf|)];
      var s2 := s1.(ctxs := s1.ctxs[g := c.(readBuf := readBuf, writeBuf := Overwrite(c.writeBuf, echo))]);
      SubmitNew(s2, Op(Write, c.fd, g, total), alloc)
    else SubmitNextRead(s1, g, alloc)
  }

  /** Does the completion belong to a connection that is still there? (lines 274 to 299 of proactor.c) */
  predicate Current(s: State, op: Op) {
    && 0 <= op.fd < s.maxConnections
    && op.fd in s.connections
    && s.connections[op.fd] == op.gen
  }

  /**
   io_event.res comes from libaio.h, which is not part of this model; declared unsigned, the test res < 0 is
   never true, so that EAGAIN takes the resubmission branch and other errors reach the handlers as negative
   counts. Declared signed, every error goes to handle_error.
   */
  predicate Resubmits(res: int, unsignedRes: bool) {
    unsignedRes && res == -EAGAIN
  }

  function DispatchOne(s: State, alloc: bool, unsignedRes: bool): State
    requires s.batch != [] && s.batch[0].op < |s.ops| && s.ops[s.batch[0].op].gen < |s.ctxs|
  {
    var o, res := s.batch[0].op, s.batch[0].res;
    var op := s.ops[o];
    var s1 := s.(batch := s.batch[1..]);
    if !Current(s, op) then s1.(freed := s.freed + [o])
    else if Resubmits(res, unsignedRes) then PushOp(s1, o)
    else
      var s2 := s1.(finishing := [o]);
      if res <= 0 then RemoveConnection(s2, op.fd)
      else if op.kind.Read? then HandleRead(s2, op.gen, res, alloc)
      else SubmitNextRead(s2, op.gen, alloc)
  }

  function Next(s: State, m: Move, unsignedRes: bool): State
    requires Enabled(s, m) && KnownOps(s)
  {
    match m
    case WorkerTake(w) => s.(workers := s.workers[w := Holding(s.stack[0])], stack := s.stack[1..])
    case WorkerSubmit(w, outcome) =>
      var o := s.workers[w].op;
      var s1 := s.(workers := s.workers[w := Waiting]);
      (match outcome
       case Submitted => s1.(kernel := s.kernel[o := Resolve(s, s.ops[o].fd)])
       case SubmitAgain => PushOp(s1, o)
       case SubmitFails => s1.(freed := s.freed + [o]))
    case KernelReads(o, data) => KernelRead(s, o, data)
    case KernelWrites(o, n) => KernelWrite(s, o, n)
    case KernelFails(o, error) => s.(kernel := s.kernel - {o}, completed := s.completed + [Completion(o, 0 - (error as int))])
    case Fetch(n) => s.(batch := s.completed[..n], completed := s.completed[n..])
    case Dispatch(alloc) => DispatchOne(s, alloc, unsignedRes)
    case Free => s.(finishing := [], freed := s.freed + s.finishing)
    case Connect(fd, handlerAlloc, opAlloc) => AddConnection(s, fd, handlerAlloc, opAlloc)
    case HangUp(fd) => RemoveConnection(s, fd)
  }

  /** Every operation belongs to a generation, and workers and dispatcher only see operations. */
  predicate KnownOps(s: State) {
    && (forall o :: 0 <= o < |s.ops| ==> s.ops[o].gen < |s.ctxs|)
    && (forall i :: 0 <= i < |s.batch| ==> s.batch[i].op < |s.ops|)
    && (forall w :: 0 <= w < |s.workers| && s.workers[w].Holding? ==> s.workers[w].op < |s.ops|)
  }

  // ---- where operations are ----

  function Count(ids: seq<OpId>, o: OpId): nat {
    Sum((x: OpId) => if x == o then 1 else 0, ids)
  }

  function CountDone(cs: seq<Completion>, o: OpId): nat {
    Sum((c: Completion) => if c.op == o then 1 else 0, cs)
  }

  function CountHeld(ws: seq<Worker>, o: OpId): nat {
    Sum((w: Worker) => if w == Holding(o) then 1 else 0, ws)
  }

  /** How many places operation o is in. */
  function Places(s: State, o: OpId): nat {
    Count(s.stack, o) + CountHeld(s.workers, o) + (if o in s.kernel then 1 else 0)
    + CountDone(s.completed, o) + CountDone(s.batch, o) + Count(s.finishing, o) + Count(s.freed, o)
  }

  // ---- what is echoed ----

  /** The echo of every chunk that fits behind the prefix, in order. */
  function EchoesOf(chunks: seq<seq<byte>>): seq<seq<byte>> {
    if chunks == [] then []
    else
      var k := |chunks| - 1;
      EchoesOf(chunks[..k]) + (if |ECHO_PREFIX| + |chunks[k]| < BUFFER_SIZE then [ECHO_PREFIX + chunks[k]] else [])
  }
}
