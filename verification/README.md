# Verification of the network servers

This project models the three network servers under `codes/network` and proves what their concurrent and
buffering code is meant to guarantee. `dafny verify dfyconfig.toml` checks everything.

* **The lock-free ring queue** (`reactor/ring_queue.c`). `RingQueue.dfy` is the queue as one thread sees it: an
  array, masked 32-bit indices, two-chunk copies, refined to the plain FIFO of `RingFifo.dfy` for any number of index
  wraps. `RingMachine.dfy` is the same queue shared by any number of threads, one step per atomic access, in the
  order of the source and with sequential consistency. `RingSafety`, `RingDelivery`, `RingOrigins`, `RingStores`,
  `RingProgress`, `RingTickets`, `RingObservations` and `RingCalls` state what holds of all its runs; `RingOvertaking` and `RingBatchOvertaking`
  are runs in which something is lost. Indices are kept as 32-bit words;
  unbounded positions are history variables that no step consults.
* **The reactor** (`reactor/reactor.c`). `ReactorEcho.dfy` specifies one connection, `ReactorConnection.dfy` is the
  record with its two buffers proved against it. `ReactorThread.dfy` is a thread's table and event loop,
  with a trace of the records it touches and closes (`ReactorActs.dfy`), `ReactorLifetime.dfy` says when such a trace is
  safe, `ReactorHandover.dfy` and `HandoverOutcomes.dfy` the way
  of a connection from accept to close and what decides it, and `LoadBalance.dfy` the round-robin counters.
* **The proactor** (`proactor/proactor.c`, `proactor/async_server_proactor.c`). `Proactor.dfy` is a step machine of
  workers, kernel and dispatcher; `ProactorLifecycle.dfy` and `ProactorEcho.dfy` prove where operations are and what
  the operations of a connection write against what they read. `ProactorSockets.dfy` proves which sockets they act on
  and what each peer gets; `ProactorReuse.dfy` has runs in which a reused descriptor leads to the wrong one.
  `ProactorProgress.dfy` says when connections are admitted, served and removed, and where each operation goes.
* **The hybrid server** (`proactor_epoll/hybrid_proactor.c`). `HybridDrain.dfy` is its compacting write path,
  `WorkerList.dfy` its linked connection list.

## Where the code does less than it promises

* **A claimed position is not yet stored, and a claimed batch not yet copied.** The queue moves `tail` before it writes
  the slot and, in `pop_batch`, `head` before it reads it. `PopCanOvertakeTheStore` is a run of two threads in which a
  pop returns the initial 0 and only the consumer fails to wait; `BatchCanBeOvertakenByTheNextLap` is one in which a
  batch removal returns the item pushed one lap later and only the producer fails to wait.
  `ConsumersReceiveWhatWasPushed` proves delivery under both halves of the handoff. Without it,
  `ConsumersReceiveTheirOwnItemIff` says for every run and every item returned by a pop or batch removal that it is the
  item last stored in its slot when it was read, hence the right one exactly if that store was the one of its position.
  Where an equivalence speaks of the value returned, the item must differ from the initial zero and from the other items
  of its own slot; that the value is the one last stored needs no such assumption.
* **A push can be refused on an empty queue** when consumers have passed the tail it loaded
  (`PushCanBeRefusedOnAnEmptyQueue`; `PushIsRefusedIff` is the exact condition). With a single producer, as in the
  accept loop, refused means full.
* **The reactor's echo can get stuck.** Data are moved to the write buffer only while they leave its last byte free, so
  a read buffer that holds `BUFFER_SIZE - 1` bytes or more with nothing to write never produces output again.
  `FirstFullReadGetsStuck` shows a first read that does it; `CanStillSendIff` is the exact condition.
* **The reactor's counter wraps.** `BalancedForeverIff`: loads stay within one of each other forever exactly when the
  number of threads divides 2^32.
* **A connection reported readable and writable at once** would be used after it was freed
  (`BothDirectionsAreUnsafe`); the interest masks prevent it (`PassIsSafeIff`, `MasksMakePassesSafe`).

* **The proactor's operations name descriptors.** A descriptor is looked up when the operation is submitted. An operation
  that is still on the stack or in a worker's hands when its connection is removed acts on whatever connection has the
  number by then: `AStaleReadTakesTheNewPeersData` and `AStaleWriteReachesTheNewPeer` are such runs.
  `ActsOnItsOwnSocketIff`: an operation acts on its own generation's socket exactly if that generation was connected
  when the operation was submitted. `StrandedExactlyByHangUps`: only a hang-up that finds the operation not yet submitted
  leaves one behind. `EveryPeerGetsItsEchoes` is the echo order per socket when that does not happen.
* **The hybrid server overwrites pending output** when data arrive before the last echo has left (`ProcessData`).

Comments in `async_server_proactor.c` (lines 66 and 138) say that EAGAIN is handled in the worker; for completions it is
the dispatcher that does it, and only if `io_event.res` is unsigned. Every statement about the proactor holds for
both readings of that type (`unsignedRes`).

## Assumptions

* A compare-exchange looks at an index that has advanced by less than 2^32 since it was loaded (`NoAba`). The index,
  delivery and ticket-holder statements need it; progress and conservation of claims and counters do not.
* The observation statements assume that the second load happens while both indices are less than a word's range past
  the first snapshot (`Deciding`); the statements about whole calls assume it of every second load (`PromptRun`).
* `Run` in `ProactorLifecycle.dfy` mentions `KnownOps` so that `Next` is defined; `Lifecycle` contains it, so no run is
  excluded.
* Sockets, epoll, the clock, memory allocation and the kernel are parameters: oracles that may answer anything their
  interface allows.

## Model

| member | source | states |
|---|---|---|
| Words.MaskIsRemainder | codes/network/reactor/ring_queue.c:5-7 | masking an index with a power of two less one is the remainder modulo that power |
| Words.Slot | codes/network/reactor/ring_queue.h:10-11 | `index & RING_QUEUE_MASK` is a slot of the buffer, the index modulo the size |
| Words.SlotOfPosition | codes/network/reactor/ring_queue.c:72 | after any number of 32-bit wraps the slot is the unbounded position modulo the size |
| Words.ChunkSlotOfPosition | codes/network/reactor/ring_queue.c:138-149 | the two-chunk copy visits exactly the slots of consecutive positions |
| Words.SubExact | codes/network/reactor/ring_queue.c:50 | unsigned subtraction of wrapped indices gives the true distance when it fits a word |
| RingFifo.PutBatchIsIteration | codes/network/reactor/ring_queue.c:112-156 | a batch insertion is the same as inserting its items one by one until full |
| RingFifo.TakeBatchIsIteration | codes/network/reactor/ring_queue.c:159-200 | a batch removal is the same as removing one by one until empty |
| RingFifo.BatchRoundTrip | codes/network/reactor/ring_queue.c:112-200 | what a batch insertion accepted comes out again in order, after the older items |
| RingQueue.RingQueue.Init | codes/network/reactor/ring_queue.c:10-20 | a new queue is valid, empty and zeroed |
| RingQueue.RingQueue.Empty | codes/network/reactor/ring_queue.c:23-30 | answers whether the FIFO is empty |
| RingQueue.RingQueue.Full | codes/network/reactor/ring_queue.c:33-41 | answers whether the FIFO holds RING_QUEUE_SIZE items |
| RingQueue.RingQueue.Size | codes/network/reactor/ring_queue.c:44-51 | returns the length of the FIFO |
| RingQueue.RingQueue.Push | codes/network/reactor/ring_queue.c:54-82 | appends the item exactly when the FIFO is not full, otherwise counts a failure; spurious failures change nothing |
| RingQueue.RingQueue.Pop | codes/network/reactor/ring_queue.c:85-109 | removes and returns the first item exactly when there is one and a place to put it |
| RingQueue.RingQueue.CopyIn | codes/network/reactor/ring_queue.c:138-149 | both chunk layouts write the items at their positions and nothing else of the lap |
| RingQueue.RingQueue.CopyOut | codes/network/reactor/ring_queue.c:182-193 | both chunk layouts read the items at their positions, the rest of the caller's array is untouched |
| RingQueue.RingQueue.PushBatch | codes/network/reactor/ring_queue.c:112-156 | appends as many items as fit and returns that number; null, zero count, full and a failed exchange insert nothing |
| RingQueue.RingQueue.PopBatch | codes/network/reactor/ring_queue.c:159-200 | removes up to count items from the front into the caller's array |
| RingSafety.DecideInv | codes/network/reactor/ring_queue.c:59-67 | whatever two stale words a thread loaded, the claim it decides on fits if its index has not moved |
| RingSafety.SuccessMeansUnmoved | codes/network/reactor/ring_queue.c:70 | without ABA a compare-exchange succeeds exactly if the index did not move since its load |
| RingSafety.NextInv | codes/network/reactor/ring_queue.c:54-200 | every step of every thread keeps the index invariant |
| RingSafety.IndicesStayWithinOneLap | codes/network/reactor/ring_queue.c:54-200 | in every run 0 <= tail - head <= RING_QUEUE_SIZE |
| RingSafety.OvertakenProducerFails | codes/network/reactor/ring_queue.c:133-136 | a producer whose tail snapshot consumers have passed loses its exchange and claims nothing |
| RingObservations.OvertakenBatchClaimsNothing | codes/network/reactor/ring_queue.c:117-136 | in every run, a push_batch that loads head after it passed the loaded tail computes a free_space beyond the ring size, and its exchange, whenever it comes, fails |
| RingSafety.AccessesInBounds | codes/network/reactor/ring_queue.c:138-193 | every slot access is to the position's slot inside the buffer; copies stay within the items offered and within the count asked for |
| RingSafety.EveryStepIsAFifoStep | codes/network/reactor/ring_queue.c:54-200 | a won exchange appends n fitting items or removes the first n; no other step changes the queue |
| RingDelivery.NextDelivery | codes/network/reactor/ring_queue.c:70-106 | with the handoff kept, every step preserves that live stored slots hold their own item |
| RingDelivery.ConsumersReceiveWhatWasPushed | codes/network/reactor/ring_queue.c:85-109 | with the handoff kept, every finished pop and batch removal returns the items pushed at its positions |
| RingOrigins.SlotsAreAccountedFor | codes/network/reactor/ring_queue.c:70-72 | in every run a slot holds the item of the one position last stored there, or its initial zero |
| RingOrigins.PopReadsItsOwnItemIff | codes/network/reactor/ring_queue.c:99-103 | a pop that can still succeed reads the item last stored in its slot, its own exactly if that store was of its position |
| RingOrigins.PopReadsItsOwnItemIffStored | codes/network/reactor/ring_queue.c:70-72 | with the handoff kept so far, it reads its own item exactly if that item has been stored |
| RingOrigins.BatchCopiesItsOwnItemIff | codes/network/reactor/ring_queue.c:182-193 | each element a batch removal copies is the item last stored in its slot, its own exactly if that store was of its position |
| RingOrigins.EveryItemWasLastInItsSlot | codes/network/reactor/ring_queue.c:85-200 | in every run each item in a consumer's hands was read by it from its position's slot, as last stored there |
| RingOrigins.ConsumersReceiveTheirOwnItemIff | codes/network/reactor/ring_queue.c:85-200 | in every run a returned item is the one pushed at its position exactly if that position was the last stored in the slot when it was read |
| RingStores.FinishedPushesAreStored | codes/network/reactor/ring_queue.c:70-78 | in every run, when a push or batch insertion has returned, the item of each of its positions has been put into its slot |
| RingStores.QuiescentBufferHoldsTheQueue | codes/network/reactor/ring_queue.c:138-155 | with the handoff kept, when no call is in progress the buffer holds the whole queue, each item in its slot |
| RingOvertaking.PopCanOvertakeTheStore | codes/network/reactor/ring_queue.c:70-72 | a run, producers keeping the handoff, in which a pop returns the slot's initial 0 instead of the pushed 7 |
| RingBatchOvertaking.BatchCanBeOvertakenByTheNextLap | codes/network/reactor/ring_queue.c:175-193 | a run, consumers keeping the handoff, in which a batch removal of position 0 returns the item of position 65536 |
| RingOvertaking.PushCanBeRefusedOnAnEmptyQueue | codes/network/reactor/ring_queue.c:60-67 | a run in which a push is refused although the queue is empty |
| RingProgress.NextPaid | codes/network/reactor/ring_queue.c:59-81 | losses plus outstanding stale snapshots stay covered by (P-1) times the wins |
| RingProgress.LossesArePaidForByWins | codes/network/reactor/ring_queue.c:59-108 | in every run of P threads, real exchange failures on an index are at most (P-1) times its successes |
| RingProgress.EveryExchangeIsCounted | codes/network/reactor/ring_queue.c:70-80 | each compare-exchange on a moved index is one loss, each successful one is one win of its index |
| RingProgress.OnlyLostExchangesDelay | codes/network/reactor/ring_queue.c:59-200 | every step brings a call closer to its end; only a lost exchange of a single push or pop starts it over |
| RingProgress.CallsStart | codes/network/reactor/ring_queue.c:112-117 | a call past its entry checks begins with its first load; an empty batch is answered at once |
| RingProgress.RefusalsAreCounted | codes/network/reactor/ring_queue.c:64-67 | in every run push_fail_count is the number of refusals, modulo 2^64 |
| RingTickets.EveryPositionHasOneOwner | codes/network/reactor/ring_queue.c:131-136 | claims that tile [0,n) cover every position below n exactly once and no other |
| RingTickets.TicketsAreConserved | codes/network/reactor/ring_queue.c:70-77 | in every run claims tile [0,T) and [0,H), and each counter plus what is still to be counted equals its index |
| RingTickets.EveryAnswerHasItsTicket | codes/network/reactor/ring_queue.c:131-155 | every finished push or pop is a claim of the thread that made it |
| RingTickets.QuiescentCountersAgree | codes/network/reactor/ring_queue.c:44-51 | when no call is in progress push_count - pop_count equals ring_queue_size and the queue length |
| RingObservations.EmptyIsAnsweredIff | codes/network/reactor/ring_queue.c:91-97 | "empty" is answered exactly if the queue is empty at the tail load and head has not moved |
| RingObservations.PushIsRefusedIff | codes/network/reactor/ring_queue.c:60-67 | a push is refused exactly if the ring is full at the head load or consumers passed its tail snapshot |
| RingObservations.SubBorrow | codes/network/reactor/ring_queue.c:120-124 | when head has passed the loaded tail, free_space comes out as the ring size plus the distance |
| RingObservations.SoleProducerIsRefusedIffFull | codes/network/reactor/server.c:71-93 | with one producer, refused at the head load if and only if full |
| RingObservations.SizeOverReportsByRecentPops | codes/network/reactor/ring_queue.c:44-51 | ring_queue_size exceeds the size at its tail load by exactly the items claimed since its head load |
| RingObservations.SizeIsExactForTheSoleConsumer | codes/network/reactor/ring_queue.c:44-51 | the sole consumer gets the exact size |
| RingObservations.FullIsAnsweredIff | codes/network/reactor/ring_queue.c:33-41 | ring_queue_full never misses a full ring and errs only by recent pops |
| RingCalls.DecisionTakesWhatFits | codes/network/reactor/ring_queue.c:117-128 | when the index has not moved between the two loads, exactly min(count, free) or min(count, size) items are claimed, or the call gives up if that is 0 |
| RingCalls.EveryCallAnswersForItself | codes/network/reactor/ring_queue.c:54-200 | in every run each finished push, pop or batch made exactly the one claim it reports, of as many items as it saw fit or be there, or moved nothing and saw the reason |
| RingCalls.RefusedPushSawNoRoom | codes/network/reactor/ring_queue.c:59-81 | a push returns false only if its own head load found the ring full or its tail snapshot passed; a lost exchange never makes it |
| RingCalls.EmptyPopSawAnEmptyQueue | codes/network/reactor/ring_queue.c:90-108 | a pop returns false only if its own tail load found the queue empty and head unmoved |
| RingCalls.SolePushIsRefusedOnlyWhenFull | codes/network/reactor/server.c:71-93 | with one producer a push returns false only if the ring was full at one of its head loads |
| ReactorEcho.ReadEvent | codes/network/reactor/reactor.c:178-228 | the read loop ends, keeps the connection valid, only extends what was received, and takes in at most its budget |
| ReactorEcho.BudgetSpent | codes/network/reactor/reactor.c:180-186 | each successful read uses up at least as much budget as it takes in, even when it empties the read buffer |
| ReactorEcho.ReadEventFollowsThePeer | codes/network/reactor/reactor.c:206-211 | what the loop receives is a gapless prefix of what the peer's reads offer |
| ReactorEcho.ReadClosesIff | codes/network/reactor/reactor.c:195-228 | a read event closes the connection exactly if some reads deliver data that leave room and the next one is an end of file or an error |
| ReactorEcho.ReadEndsOpenIff | codes/network/reactor/reactor.c:195-228 | it ends open exactly if some reads deliver data and then the buffer is full or the socket has nothing more |
| ReactorEcho.ReadEventStops | codes/network/reactor/reactor.c:195-228 | the loop takes exactly the reads up to the one that has to stop it, and nothing else |
| ReactorEcho.WriteEvent | codes/network/reactor/reactor.c:247-275 | a write attempt keeps the connection valid and only extends what was delivered |
| ReactorEcho.WriteEventSends | codes/network/reactor/reactor.c:230-275 | the next bytes leave, as many as the socket takes; closed exactly if output is pending and the socket fails; input is asked for exactly when the last byte has left |
| ReactorEcho.EchoConservesTheStream | codes/network/reactor/reactor.c:178-275 | for every run, delivered ++ unsent ++ parked is exactly what was received, at most 2*BUFFER_SIZE - 1 bytes apart |
| ReactorEcho.StuckStaysStuck | codes/network/reactor/reactor.c:182-203 | a read buffer filled to its last byte with nothing to write stays so, and nothing more is delivered |
| ReactorEcho.CanStillSendIff | codes/network/reactor/reactor.c:178-275 | further output is possible exactly if output is pending or two more bytes fit the read buffer |
| ReactorEcho.FirstFullReadGetsStuck | codes/network/reactor/reactor.c:182-203 | a connection whose first read fills the buffer never echoes anything |
| ReactorConnection.Connection.HandleAddWrite | codes/network/reactor/reactor.c:178-192 | the in-place move of parked bytes and the mask change do what the specification says |
| ReactorConnection.Connection.HandleReadEvent | codes/network/reactor/reactor.c:195-228 | the loop over the real buffers computes ReadEvent and makes at most one call more than its budget |
| ReactorConnection.Connection.HandleWriteEvent | codes/network/reactor/reactor.c:248-274 | the cursor over the real write buffer computes WriteEvent |
| ReactorThread.ReactorThread.ThreadAddConnection | codes/network/reactor/reactor.c:111-142 | a connection is added, in the first free slot, exactly if setup succeeds and a slot is free; a failure leaves no trace |
| ReactorThread.ReactorThread.HandleCloseEvent | codes/network/reactor/reactor.c:41-61 | a live record leaves table, epoll set and counters once, and no other slot changes |
| ReactorThread.ReactorThread.ProcessNewConnectionsBatch | codes/network/reactor/reactor.c:145-176 | each popped descriptor is added or rejected, rejected only if setup failed or the table is full |
| ReactorThread.ReactorThread.HandleEvents | codes/network/reactor/reactor.c:309-343 | every reported connection becomes what its event makes of it, all others are untouched, each closed one was closed once; records are touched and closed in the order of PassActs |
| ReactorThread.ReactorThread.CloseExpired | codes/network/reactor/reactor.c:346-355 | the sweep closes exactly the expired connections, once |
| ReactorThread.ReactorThread.RunPass | codes/network/reactor/reactor.c:287-356 | after one loop iteration every connection known or taken over is what its own event made of it; it is closed, once, exactly if that closes it or a sweep finds it expired; records are touched in the order of PassActs and of a sweep over what is left in the table |
| ReactorThread.ListsMatchIds | codes/network/reactor/reactor.c:314-333 | the read and write lists hold exactly the ready connections, without repetition |
| ReactorThread.StageMatchesEvents | codes/network/reactor/reactor.c:309-343 | classification, reads and writes in turn amount to each connection's own event |
| ReactorLifetime.PassIsSafeIff | codes/network/reactor/reactor.c:309-343 | a pass never uses a closed record exactly if no connection closed by its read handler was also reported writable |
| ReactorLifetime.WholePassIsSafeIff | codes/network/reactor/reactor.c:309-355 | with what the handlers really close, and the timer sweep, a pass is safe exactly if every connection reported in both directions survives its read |
| ReactorLifetime.MasksMakePassesSafe | codes/network/reactor/reactor.c:187-244 | events within one-direction masks make every pass safe |
| ReactorLifetime.BothDirectionsAreUnsafe | codes/network/reactor/reactor.c:326-343 | an event in both directions leads to a use after free |
| ReactorHandover.NextInv | codes/network/reactor/reactor.c:111-176 | every step keeps each connection in one place and the counters equal to the table |
| ReactorHandover.EveryConnectionIsInOnePlace | codes/network/reactor/reactor.c:363-388 | in every run each accepted connection is in exactly one place |
| ReactorHandover.CountersAndOrder | codes/network/reactor/reactor.c:133-136 | active is the table size, total is active plus closed, and service order is dispatch order |
| HandoverOutcomes.RefusedIffItsQueueWasFull | codes/network/reactor/reactor.c:374-387 | in every run a connection is refused exactly if the queue of thread Wrap(id) % n was full at its dispatch; else it arrived there and at no other thread |
| HandoverOutcomes.BatchIsTheFrontOfTheQueue | codes/network/reactor/reactor.c:145-151 | a batch is the front of the queue, all of it up to 64 |
| HandoverOutcomes.InTheTableIffSetUp | codes/network/reactor/reactor.c:159-168 | in every run a connection that was looked at entered the table exactly if its setup succeeded, and was rejected otherwise |
| HandoverOutcomes.ActionsMoveOn | codes/network/reactor/reactor.c:145-176 | every action takes its connection one place further |
| LoadBalance.ReactorDispatcher.Select | codes/network/reactor/reactor.c:374-376 | each dispatch adds one to the load of the thread it selects |
| LoadBalance.ReactorLoadByLaps | codes/network/reactor/reactor.c:374-376 | the load of a thread is its load per counter lap times the laps, plus that of the started lap |
| LoadBalance.ReactorLoadsStayClose | codes/network/reactor/reactor.c:374-376 | after n dispatches loads differ by at most 1 + n / 2^32 |
| LoadBalance.BalancedForeverIff | codes/network/reactor/reactor.c:374-376 | loads stay within one forever exactly if the thread count divides 2^32 |
| LoadBalance.WorkerDispatcher.Select | codes/network/proactor_epoll/hybrid_proactor.c:305-309 | each accept adds one to the load of the worker it selects |
| LoadBalance.PlainLoadExact | codes/network/proactor_epoll/hybrid_proactor.c:306-307 | a worker's load after n accepts is n / k, plus one for the first n mod k workers |
| LoadBalance.WorkerLoadsStayWithinOne | codes/network/proactor_epoll/hybrid_proactor.c:305-309 | worker loads stay within one of each other forever |
| ProactorLifecycle.NextLifecycle | codes/network/proactor/proactor.c:86-170 | every step keeps each operation in exactly one place |
| ProactorLifecycle.EveryOperationIsInOnePlace | codes/network/proactor/proactor.c:112-334 | in every run each operation is in one of stack, worker, kernel, completions, dispatcher, freed |
| ProactorLifecycle.FreedOperationsStayFreed | codes/network/proactor/proactor.c:128-166 | a freed operation is freed once and is in no other place again, also with EAGAIN resubmission |
| ProactorProgress.ConnectionsAreServedIff | codes/network/proactor/proactor.c:86-334 | in every run a connected generation has an operation on its way exactly if none of its submissions failed and none of its operations could not be allocated |
| ProactorProgress.StaysConnectedIff | codes/network/proactor/proactor.c:270-334 | a connection is removed exactly by a hang-up, or by an end of file or error of its own operation that is not resubmitted |
| ProactorProgress.BecomesConnectedIff | codes/network/proactor/async_server_proactor.c:271-306 | a generation becomes connected exactly when a valid, free descriptor is accepted and its handler can be allocated |
| ProactorProgress.CurrentIffConnected | codes/network/proactor/proactor.c:274-299 | the dispatcher's checks accept a completion exactly if its own connection is still there |
| ProactorProgress.EveryMoveMovesItsOperation | codes/network/proactor/proactor.c:112-334 | every step takes its operation to the next place, EAGAIN back to the stack, and nowhere else |
| ProactorProgress.StackIsLastInFirstOut | codes/network/proactor/proactor.c:496-506 | what lies below an operation on the stack stays until that operation has been taken |
| ProactorEcho.KernelReadsEcho | codes/network/proactor/proactor.c:124-137 | a completed read leaves its chunk in the buffer, next to be echoed |
| ProactorEcho.ReadHandlerEcho | codes/network/proactor/async_server_proactor.c:82-112 | the read handler submits the echo of its chunk, or the next read when it does not fit |
| ProactorEcho.DispatchEcho | codes/network/proactor/proactor.c:270-334 | handling one completion keeps order, content and one operation per connection |
| ProactorEcho.ConnectEcho | codes/network/proactor/async_server_proactor.c:271-306 | a new connection starts with at most one operation, its first read |
| ProactorEcho.EchoesFollowTheChunks | codes/network/proactor/async_server_proactor.c:82-112 | in every run a generation's operations write, in order, the echo of each chunk of at most 4089 bytes they read, at most the last one missing |
| ProactorEcho.OneOperationPerConnection | codes/network/proactor/async_server_proactor.c:18-166 | a connection generation never has two unhandled operations |
| ProactorSockets.ResolvesToItsOwnIff | codes/network/proactor/proactor.c:123-146 | submitted now, a waiting operation acts on its own generation's socket exactly if the generation is still connected |
| ProactorSockets.ActsOnItsOwnSocketIff | codes/network/proactor/proactor.c:112-146 | in every run an operation in the kernel acts on its own generation's socket exactly if that was connected at its submission |
| ProactorSockets.EveryTransferWasSubmitted | codes/network/proactor/proactor.c:112-146 | in every run whatever passed over a socket was submitted earlier, with the same equivalence |
| ProactorSockets.OwnOperationsEcho | codes/network/proactor/proactor.c:270-334 | in every run, on a connection's own socket, its own operations write the echoes of what they read, in order, at most the last one missing |
| ProactorSockets.PeerGetsItsEchoes | codes/network/proactor/async_server_proactor.c:82-112 | while only a connection's own operations are submitted on its socket, the peer gets the echo of each chunk it sent, in order |
| ProactorSockets.StrandedExactlyByHangUps | codes/network/proactor/proactor.c:173-179 | a step leaves an operation waiting for a removed connection exactly if it is a hang-up that finds it not submitted |
| ProactorSockets.EveryPeerGetsItsEchoes | codes/network/proactor/proactor.c:86-334 | without such hang-ups every operation acts on its own socket and every peer gets its echoes in order |
| ProactorReuse.AStaleReadTakesTheNewPeersData | codes/network/proactor/proactor.c:123-137 | a run in which a removed connection's read takes the bytes of the next peer with the same descriptor, and they are dropped |
| ProactorReuse.AStaleWriteReachesTheNewPeer | codes/network/proactor/proactor.c:143-151 | a run in which a removed connection's echo goes to the next peer with the same descriptor |
| ProactorEcho.WriteBufferIsStable | codes/network/proactor/async_server_proactor.c:94-107 | write_buf does not change while its write is outstanding |
| HybridDrain.DrainsAgree | codes/network/proactor_epoll/hybrid_proactor.c:551-581 | after any write results the compacting and the cursor drain have sent the same and have the same left |
| HybridDrain.WriteOnceSends | codes/network/proactor_epoll/hybrid_proactor.c:551-581 | a writable socket takes the first min(n, pending) bytes; EAGAIN marks it unwritable and an error closes it, if something is pending |
| HybridDrain.MtConnection.TryWrite | codes/network/proactor_epoll/hybrid_proactor.c:551-581 | the memmove in the real buffer drops exactly the bytes sent |
| HybridDrain.MtConnection.ProcessData | codes/network/proactor_epoll/hybrid_proactor.c:585-603 | the echo of the data replaces what was pending, so the stream grows by it exactly if nothing was; as much of it leaves at once as a writable socket takes; nothing happens when it does not fit |
| WorkerList.ListIsAddedMinusRemoved | codes/network/proactor_epoll/hybrid_proactor.c:358-382 | after any operations the list is the added and not yet removed connections, newest first |
| WorkerList.Worker.AddConnection | codes/network/proactor_epoll/hybrid_proactor.c:358-382 | a successful add puts the node in front, a failed one leaves the list as it was |
| WorkerList.Worker.Relink | codes/network/proactor_epoll/hybrid_proactor.c:703-706 | only the link that led to the node changes |
| WorkerList.Worker.RemoveConnection | codes/network/proactor_epoll/hybrid_proactor.c:674-712 | unlinks the node, keeps the others in order and the list acyclic; a node marked as being removed is left alone |

## Left out

- Weak memory: atomics and the ring's plain slot accesses are taken as sequentially consistent; fences are not modelled.
- ConsumersReceiveWhatWasPushed: assumes the handoff (`Handoff`), because without it the statement is false, as `PopCanOvertakeTheStore` shows.
- IndicesStayWithinOneLap: assumes no ABA on the 32-bit indices, which the source does not rule out.
- memcpy of a batch in the shared queue goes element by element in ascending order; other orders are not modelled.
- RingMachine: a null queue, item or batch pointer is not modelled there; the class in `RingQueue.dfy` covers null item and batch pointers.
- RingQueue: a null queue pointer; a compare-exchange that fails spuriously forever.
- Worker.RemoveConnection: the record stays allocated after its removal; the source frees it (hybrid_proactor.c:711), so that a second removal would read freed memory instead of finding `is_removing` set.
- ReactorThread: connection records are values in a map keyed by fresh identities; aliasing and reuse of freed memory or descriptors are not modelled. The record updated in place is `ReactorConnection.Connection`.
- ReactorHandover: the ring queue appears through its FIFO specification, so the handoff is assumed and a spurious failure is no step; a connection is refused exactly if the queue is full, as for a sole producer.
- Proactor: operations and contexts are values keyed by fresh identities, the stack's links are a sequence, and freed handlers are not dereferenced; `op->next` and memory reuse are not captured.
- PeerGetsItsEchoes: speaks of the whole buffer handed to each write, as all statements about echoes do; after a short write the server goes on reading, so the peer may receive only a prefix of an echo.
- Proactor: accepting and registering a connection is one step, as is dropping it when its handler cannot be allocated; a submission while that is under way is placed before or after it.
- TryWrite: the asynchronous fallback after EAGAIN (`mt_submit_async_write`) and the rest of the hybrid server's AIO path.
- Worker: removal by two threads at once; each list operation is one atomic step, as under `conn_list_lock`.
- Liveness: that a scheduled thread eventually runs or that the kernel eventually completes an operation.
- Startup, shutdown, statistics output, socket setup, epoll_ctl failures other than on registration, and the files under `docs`.
