# Verified models of the messaging core

The project models the parts of the Ibdxnet native library and of its bundled logging and formatting libraries whose
correctness does not show in any single body, and proves what they are for.

- **Messages.** The send dispatcher cuts the filled area of a circular send buffer into work requests (`SendChunks`),
  keeps books of what is in flight (`SendLedger`, `SendDispatchers`) and reports completions through a sparse index
  over dense arrays (`CompletionIndex`, `CompletedWorkLists`). The receive side (`RecvBuffers`, `RecvRuns`,
  `RecvSafety`, `RecvRequests`, `RecvDispatchers`, `IncomingRingBuffers`) scatters every message over pool buffers,
  works out the lengths again and hands entries to a handler that returns buffers whenever it likes. `EndToEnd` joins
  the two. The adapter in between is a reliable channel that delivers the messages of a node in order and scatters
  bytes in order; posted receive work requests complete in any order.
- **Buffer pool.** `RecvBufferPools` is the pool with one call at a time, `PoolProtocol` is its concurrent protocol.
- **Logging queue.** `MpmcQueue` is the queue of the asynchronous logger, one atomic access per step, `LogWorkers` its
  worker, and `LogDrain` joins the two.
- **Connections.** `Handshake` is the exchange between two nodes over a lossy network, `ConnectionManagers` the job
  handlers and their table, `JobQueues` the ring of jobs they come from with one call at a time, and `JobProtocol` that
  ring between the threads that add and the thread that takes.
- **Numbers.** `Decimals` and `DecimalWriters` are the digit count, the printers and the parser.

Objects whose methods change fields are classes whose methods are proved against functions of the old state. Threads
are state machines with one step per atomic access under sequential consistency; statements about them hold for all
runs. `RecvDispatcher.Dispatch` is proved to be a run of the receive machine, so what is proved of runs holds of the
class. `Arithmetic`, `Finite`, `Rings` and `Streams` are shared vocabulary.

Assumed throughout the data path: send buffer size plus largest message is at most 2^32, positions lie inside the
buffer, both sides have the same buffer configuration, and no work completion fails.

Where the code and its comments disagree, the model follows the code and says so:

- The publish loops of the pool (`src/ibnet/dx/RecvBufferPool.cpp:228` and `:283`) reuse the reserved index as the
  expected value of the compare-and-swap, which a failure overwrites. The protocol proved for any number of returners
  keeps the reserved index, as the comment at `:219-227` describes. Of the loop as written, `AttemptExactly` says when
  one attempt does the same, `TwoAttemptsExactly` when what it publishes out of turn is filled, `SerializedRuns` that
  every run in which returns do not overlap is a run of the protocol, and `WrittenLoopFails` shows a run of it that
  ends in a null buffer.
- The capacity test of the job queue (`src/ibnet/con/JobQueue.cpp:57`) groups as `backRes + (1 % m_size)`. `PushBack`
  and `WrittenTest` say exactly what it does; with one slot left it lets the ring fill up, and the ring then looks
  empty. The publish loop of the queue (`src/ibnet/con/JobQueue.cpp:68`) has the fault of that of the pool;
  `JobProtocol` proves the protocol with kept indices, and says of the loop as written what `PoolProtocol` says.
- The flag by which only one thread adds the job that creates a connection (`src/ibnet/con/ConnectionManager.cpp:167`)
  is cleared on a timeout only. `RequestCreation` says exactly when the job is added, and `AskTwice` that it is not
  added for a connection that was created on request and closed.
- A batch take of the pool leaves the last published buffer behind once the ring has wrapped
  (`src/ibnet/dx/RecvBufferPool.cpp:166`); `GetBuffers` and `LookSees` state the exact number.
- The completion list enters a node twice if its 8-bit flow control sum comes back to zero; `IndexExactly` gives the
  condition.

## Model

| member | source | states |
|---|---|---|
| EndToEnd.EndToEnd | src/ibnet/msgrc/RecvDispatcher.cpp:172-193 | in every run of the receive side, if the messages that arrived from a node are a prefix of what its packages put on the wire, then the bytes and flow control values the handler got from that node are a prefix of what those packages posted; with everything arrived and nothing left inside, exactly that; and so, taken apart, for the plain bytes and for the flow control values |
| EndToEnd.PackageArrives | src/ibnet/msgrc/SendDispatcher.cpp:464-720 | for every send buffer, positions, free queue places and flow control value, the messages of a package carry its flow control value once, then the posted part of the filled area, in order, across the wrap |
| EndToEnd.ReportIsTrue | src/ibnet/msgrc/SendDispatcher.cpp:693-709 | what the sender reports is what the receiver sees: reported bytes are the posted bytes, posted and not posted add up for bytes and for flow control, and the items on the wire are the reported ones |
| EndToEnd.SendPackage | src/ibnet/msgrc/SendDispatcher.cpp:448-462 | from the class to the wire: after a package is sent, what the adapter finds by following the links in the dispatcher's arrays, gathering from the send buffer, carries exactly the items of the package |
| EndToEnd.LinkedAreMessages | src/ibnet/msgrc/SendDispatcher.cpp:722-744 | the linked work requests in the arrays are the messages of the requests they were prepared from, in order |
| EndToEnd.MessagesFit | src/ibnet/msgrc/RecvDispatcher.cpp:385-400 | no request is longer than one receive work request or empty in both data and flow control, so the receiver's check of empty messages cannot fire |
| EndToEnd.WireCarries | src/ibnet/msgrc/SendDispatcher.cpp:448-462 | over any list of packages of a node, the messages on the wire carry all their items in order |
| EndToEnd.MessagesCarry | src/ibnet/msgrc/SendDispatcher.cpp:464-720 | the messages of a list of requests carry the gathered bytes, and the flow control value of the first once |
| SendChunks.CutCarries | src/ibnet/msgrc/SendDispatcher.cpp:483-712 | the requests read exactly the first min(filled, places * maximum) bytes of the filled area, in order, for all inputs that fit into 32 bits |
| SendChunks.CutShape | src/ibnet/msgrc/SendDispatcher.cpp:483-712 | the number of requests is min(places, ceil(filled / maximum)); all but the last are full and none is empty; the flow control value is on the first only; at most one request gathers two pieces, and only across the wrap |
| SendChunks.CutStops | src/ibnet/msgrc/SendDispatcher.cpp:493-494 | cutting stops only when the places are used up or everything is cut, data and flow control |
| SendChunks.CutUnits | src/ibnet/msgrc/SendDispatcher.cpp:655-709 | the requests of a package add up to its flow control value, if there are any |
| SendChunks.CutIsPlan | src/ibnet/msgrc/SendDispatcher.cpp:530-590 | the seven-way case split of the loop does what a cut without case split does |
| SendChunks.AreaIsNextPiece | src/ibnet/msgrc/SendDispatcher.cpp:534-580 | one turn of the loop covers the next min(maximum, left) bytes around the end of the buffer |
| SendChunks.AreaInBoundsExactly | src/ibnet/msgrc/SendDispatcher.cpp:534-580 | a request stays inside the send buffer if and only if its start plus the maximum does not overflow 32 bits |
| SendChunks.AreaLength | src/ibnet/msgrc/SendDispatcher.cpp:600-650 | a request is never empty, never above the maximum and never of more than two pieces, so the length checks cannot fire |
| SendChunks.PiecesIsCeiling | src/ibnet/msgrc/SendDispatcher.cpp:483-712 | the number of pieces of the plan is the ceiling of the division |
| SendChunks.BytesToProcessIsRegion | src/ibnet/msgrc/SendDispatcher.cpp:485-491 | the computed amount is the size of the filled area |
| SendLedger.RunStaysBalanced | src/ibnet/msgrc/SendDispatcher.cpp:345-446 | in every run of posts and completions the books balance: pending counters, requests in flight, bytes and flow control units posted = completed + in flight, and no more than connections * queue depth contexts are out; `ReportsAddUp` ties completed to the lists that are handed over |
| SendLedger.BalancedGive | src/ibnet/msgrc/SendDispatcher.cpp:722-767 | posting a request below the queue depth keeps the books balanced |
| SendLedger.BalancedTake | src/ibnet/msgrc/SendDispatcher.cpp:413-428 | completing a request in flight keeps the books balanced |
| SendLedger.PoolNotDry | src/ibnet/msgrc/SendWorkRequestCtxPool.cpp:52-73 | while a connected node is below the queue depth, a pool of connections * depth contexts has one left |
| SendLedger.SumOfPending | src/ibnet/msgrc/SendDispatcher.cpp:760-764 | the completion counter is the sum of the per-node counters |
| SendLedger.FlightBound | src/ibnet/msgrc/SendDispatcher.cpp:483-484 | there are never more requests in flight than connections * queue depth |
| SendDispatchers.SendDispatcher.constructor | src/ibnet/msgrc/SendDispatcher.cpp:33-110 | a new dispatcher has arrays of its own, nothing in flight, nothing reported and balanced books |
| SendDispatchers.SendDispatcher.PrepareWorkRequests | src/ibnet/msgrc/SendDispatcher.cpp:464-720 | the loop writes exactly the requests of the cut into the work request and SGE arrays, within their bounds, takes one context for each, and reports what they carry; it stops only when the queue is full or neither data nor flow control is left, and what is reported posted and not posted adds up to the filled area and to the flow control value |
| SendDispatchers.SendDispatcher.PrepareNext | src/ibnet/msgrc/SendDispatcher.cpp:483-690 | one turn writes the next request of the cut behind those written so far and takes the next context |
| SendDispatchers.SendDispatcher.AddRequest | src/ibnet/msgrc/SendDispatcher.cpp:600-667 | a context, at most two SGEs and one work request are written, and nothing else changes |
| SendDispatchers.GatherNext | src/ibnet/msgrc/SendDispatcher.cpp:530-650 | the gather list and the next position are those of the case split; the length exception cannot fire |
| SendDispatchers.PlaceSges | src/ibnet/msgrc/SendDispatcher.cpp:600-650 | the gather elements go to the next free places of the SGE array |
| SendDispatchers.SendDispatcher.PostWorkRequests | src/ibnet/msgrc/SendDispatcher.cpp:722-767 | following the links from the first work request, the adapter finds exactly the prepared requests, in order, each asking for a completion; nothing but links and flags is changed, and the requests enter the counters |
| SendDispatchers.SendDispatcher.SendData | src/ibnet/msgrc/SendDispatcher.cpp:448-462 | a package is sent as the requests of its cut, linked in order; afterwards the queue is full or nothing is reported as not posted; posted and not posted add up to the filled area and to the flow control value; the books gain exactly the requests |
| SendDispatchers.SendDispatcher.Dispatch | src/ibnet/msgrc/SendDispatcher.cpp:251-343 | one turn in the source's order: the list handed over enters the sum of what was handed over, list and results are cleared, the next package is sent until the queue is full or nothing is left, unless there is none or its connection times out, the report and the posted amounts are those of this package, and the polled completions are the new list, if and only if it has room for their nodes |
| SendDispatchers.SendDispatcher.ReportsAddUp | src/ibnet/msgrc/SendDispatcher.cpp:251-446 | between turns, per node, for bytes and for flow control units: reported posted = in the completion lists handed over + in the present list + in flight, and without the last once nothing is in flight; the entries of the list are its sums cut to 32 and 8 bits |
| SendDispatchers.SendDispatcher.SendNext | src/ibnet/msgrc/SendDispatcher.cpp:273-303 | the package is sent until the queue is full or nothing is left, or nothing is posted and the report is all zeros; the bytes and flow control units reported posted enter the sum of its node |
| SendDispatchers.SendDispatcher.ResetResults | src/ibnet/msgrc/SendDispatcher.cpp:270-272 | the list that was handed over leaves the dispatcher and enters the sum of what was handed over; the report is empty, with four zero amounts |
| SendDispatchers.SendDispatcher.TakeContext | src/ibnet/msgrc/SendWorkRequestCtxPool.cpp:52-73 | with balanced books the pool does not run dry, and the context taken is not in flight |
| SendDispatchers.SendDispatcher.CompleteOne | src/ibnet/msgrc/SendDispatcher.cpp:413-428 | a completion is entered for its node, what it carried leaves the flight for the list, and its context returns, if and only if the node list has room |
| SendDispatchers.SendDispatcher.ReturnContext | src/ibnet/msgrc/SendDispatcher.cpp:423-428 | the completed request leaves the books, which stay balanced |
| SendDispatchers.SendDispatcher.PollCompletions | src/ibnet/msgrc/SendDispatcher.cpp:345-446 | if and only if the node list has room for them all: exactly the polled requests leave the flight, their contexts return in order, the list gains exactly them, and what the books have as completed grows by exactly what the list gains |
| SendDispatchers.IndexRoom | src/ibnet/msgrc/SendDispatcher.cpp:416-419 | if no entry comes back to zero, the node list needs no more than one entry per connected node |
| CompletionIndex.IndexExactly | src/ibnet/msgrc/SendDispatcher.cpp:416-422 | the node list names exactly the nodes with a non-zero entry, once each, after every completion of a batch, if and only if no node's wrapped sums come back to zero on the way |
| CompletionIndex.FittingNeverVanishes | src/ibnet/msgrc/SendDispatcher.cpp:421-422 | sums that fit their 32-bit and 8-bit entries never come back to zero |
| CompletionIndex.VanishingExample | src/ibnet/msgrc/SendDispatcher.cpp:416-422 | two flow control values of 128 to one node cancel, and the node is listed twice |
| CompletionIndex.NonZeroIsListed | src/ibnet/msgrc/SendHandler.h:121-130 | every node with a non-zero entry is listed, whatever the sums do |
| CompletionIndex.ListedIsOccurring | src/ibnet/msgrc/SendDispatcher.cpp:416-419 | a node is listed if and only if it completed something |
| CompletedWorkLists.CompletedWorkList.Add | src/ibnet/msgrc/SendDispatcher.cpp:416-422 | the entry of the node grows by what completed, modulo 2^32 and 2^8, and no other; the node is appended to the list if and only if its entry was zero; so the dense arrays are the wrapped sums of the batch and the list is its index; the write beyond the end of the list happens exactly if the index outgrows it |
| CompletedWorkLists.CompletedWorkList.Reset | src/ibnet/msgrc/SendHandler.h:121-130 | clearing the listed entries only makes the whole dense arrays zero |
| WorkRequestPools.SendWorkRequestCtxPool.constructor | src/ibnet/msgrc/SendWorkRequestCtxPool.cpp:27-40 | all contexts are in the pool |
| WorkRequestPools.SendWorkRequestCtxPool.Pop | src/ibnet/msgrc/SendWorkRequestCtxPool.cpp:52-73 | first in, first out; an exception exactly if all are out; the null check cannot fire |
| WorkRequestPools.SendWorkRequestCtxPool.Push | src/ibnet/msgrc/SendWorkRequestCtxPool.cpp:75-94 | the object goes to the back; an exception exactly if none is out; the occupied-slot check cannot fire |
| WorkRequestPools.RecvWorkRequestPool.constructor | src/ibnet/msgrc/RecvWorkRequestPool.cpp:26-45 | all work requests are in the pool |
| WorkRequestPools.RecvWorkRequestPool.Pop | src/ibnet/msgrc/RecvWorkRequestPool.cpp:57-78 | first in, first out over the gapped ring; an exception exactly if it is empty; the null check cannot fire |
| WorkRequestPools.RecvWorkRequestPool.Push | src/ibnet/msgrc/RecvWorkRequestPool.cpp:80-99 | the object goes to the back; an exception exactly if the pool is full; the occupied-slot check cannot fire |
| IncomingRingBuffers.IncomingRingBuffer.constructor | src/ibnet/msgrc/IncomingRingBuffer.cpp:12-19 | an empty ring |
| IncomingRingBuffers.IncomingRingBuffer.SetBack | src/ibnet/msgrc/IncomingRingBuffer.h:81-83 | filling in the back entry does not change what the handler is shown, unless the ring is full |
| IncomingRingBuffers.IncomingRingBuffer.PushBack | src/ibnet/msgrc/IncomingRingBuffer.cpp:36-45 | the back entry is appended exactly if the ring is not full; otherwise an exception with the counter already past the size |
| IncomingRingBuffers.IncomingRingBuffer.PopFront | src/ibnet/msgrc/IncomingRingBuffer.cpp:26-34 | the given number of entries leaves the front, or an exception and nothing changes |
| RecvBuffers.ScatterThenRead | src/ibnet/msgrc/RecvDispatcher.cpp:415-456 | a payload scattered over distinct buffers and read back through the entries is the payload, in order, with the flow control value once before it |
| RecvBuffers.EntryBytes | src/ibnet/msgrc/RecvDispatcher.cpp:449-456 | what an entry shows is its flow control value, if there is one, and the first `length` bytes of its buffer in the region |
| RecvBuffers.MessageBytes | src/ibnet/msgrc/RecvDispatcher.cpp:380-415 | what a message is to show is its flow control value, if there is one, and its payload |
| RecvBuffers.DataEntriesBuffers | src/ibnet/msgrc/RecvDispatcher.cpp:419-456 | the entries name the leading buffers of the work request in order, each within its size |
| RecvBuffers.ScatterFrame | src/ibnet/dx/RecvBufferPool.cpp:64-69 | receiving into buffers changes no other buffer |
| RecvBuffers.ItemsFrame | src/ibnet/msgrc/RecvDispatcher.cpp:415-456 | entries whose buffers are not received into keep showing what they showed |
| RecvBuffers.SlicesDisjoint | src/ibnet/dx/RecvBufferPool.cpp:64-69 | different buffers are disjoint slices of the region |
| RecvSafety.EveryRun | src/ibnet/msgrc/RecvDispatcher.cpp:172-193 | in every run of the receive side with any arrivals and any returns: every buffer is in exactly one of pool, posted work requests, completions, ring and handler; handed over plus inside is what arrived, in order; held buffers keep their bytes; no queue or pool overflows or runs dry |
| RecvSafety.StepInv | src/ibnet/msgrc/RecvDispatcher.cpp:195-531 | every step keeps all of this |
| RecvSafety.StepConserves | src/ibnet/msgrc/RecvDispatcher.cpp:238-339 | no step loses or doubles a buffer |
| RecvSafety.StepCounts | src/ibnet/msgrc/RecvDispatcher.cpp:238-531 | every step keeps, for each buffer, the number of places it is in |
| RecvSafety.StepInOrder | src/ibnet/msgrc/RecvDispatcher.cpp:341-531 | every step keeps handed over plus inside equal to what arrived; an arrival appends to what arrived, and nothing handed over is ever taken back |
| RecvSafety.StepStable | src/ibnet/msgrc/RecvDispatcher.cpp:499-531 | no step changes the bytes of a buffer the handler holds |
| RecvSafety.ResourcedStep | src/ibnet/msgrc/RecvDispatcher.cpp:43-51 | every step keeps the queue, ring and work request bounds, which rests on poll, refill, process in this order |
| RecvSafety.HandedOver | src/ibnet/msgrc/RecvDispatcher.cpp:499-531 | what was handed over is a prefix of what arrived, and all of it once nothing is inside |
| RecvSafety.NeverStuck | src/ibnet/msgrc/RecvDispatcher.cpp:195-294 | every arrival that fits and every return is possible at any time, and in every phase the dispatcher's next step: a poll of any number of completions that the ring has room for, on an empty ring of min(ready, queue size) of them; a refill with what it asks for or all there is; what it shows the handler can be read |
| RecvSafety.DispatchDeliversAll | src/ibnet/msgrc/RecvDispatcher.cpp:172-193 | whenever the ring is empty, one more dispatch, without any move of the adapter and of the handler, can hand over all that has arrived |
| RecvSafety.RefillGoesFar | src/ibnet/msgrc/RecvDispatcher.cpp:238-302 | a refill posts until the queue is full or what there was in the pool, but for one buffer, does not make up another work request |
| RecvSafety.EnoughRoom | src/ibnet/msgrc/RecvDispatcher.cpp:43-51 | the work request pool of twice the queue size has one for every refill and room for every return, and the ring has room for every entry of the next completion |
| RecvSafety.RoomForAll | src/ibnet/msgrc/RecvDispatcher.cpp:341-490 | all completions of a poll fit into the ring, the buffer pool and the work request pool |
| RecvSafety.RoomForReturn | src/ibnet/dx/RecvBufferPool.cpp:195-238 | while the handler holds a buffer the pool has room for it |
| RecvSafety.PostedIsOwn | src/ibnet/msgrc/RecvDispatcher.cpp:272-281 | the buffers of every posted work request are distinct, inside the region and nobody else's |
| RecvSafety.EntriesAndUnused | src/ibnet/msgrc/RecvDispatcher.cpp:388-486 | the buffers of a work request are those of its entries followed by those returned at once |
| RecvSafety.ProcessAll | src/ibnet/msgrc/RecvDispatcher.cpp:341-497 | processing the polled completions one by one ends with all their entries in the ring and all their unused buffers in the pool |
| RecvRuns.PollLimit | src/ibnet/msgrc/RecvDispatcher.cpp:195-211 | the largest number of completions, up to the queue size, that the free entries allow at one entry per SGE |
| RecvRuns.Requests | src/ibnet/msgrc/RecvDispatcher.cpp:265-282 | a refill builds as many work requests as there are full SGE lists and free queue places, no more and no fewer |
| RecvDispatchers.RecvDispatcher.constructor | src/ibnet/msgrc/RecvDispatcher.cpp:33-51 | ring and work request pool have the sizes the bounds rest on |
| RecvDispatchers.RecvDispatcher.Poll | src/ibnet/msgrc/RecvDispatcher.cpp:195-236 | the oldest completions are taken: all that are ready, or as many as the queue has, or as many as the ring has whole groups of entries for, at least one if anything is ready and there is a group; they leave the pending counter |
| RecvDispatchers.RecvDispatcher.PrepareRequest | src/ibnet/msgrc/RecvDispatcher.cpp:272-281 | a work request object that is used nowhere gets the SGE list and no successor; the lists of all others stay |
| RecvDispatchers.RecvDispatcher.PrepareRequests | src/ibnet/msgrc/RecvDispatcher.cpp:262-282 | as many full SGE lists as the buffers allow, in order, for the oldest work request objects of the pool |
| RecvDispatchers.RecvDispatcher.PostRequests | src/ibnet/msgrc/RecvDispatcher.cpp:246-302 | buffers taken, posted and returned are exactly those of the machine's refill, and the links lead from the first posted work request through all of them, in order, and end there |
| RecvDispatchers.RecvDispatcher.ChainRequests | src/ibnet/msgrc/RecvDispatcher.cpp:290-295 | each prepared work request is linked to the next one, the last to none |
| RecvDispatchers.RecvDispatcher.Refill | src/ibnet/msgrc/RecvDispatcher.cpp:238-339 | the new pool, posted work requests and counters are those of the machine's refill; afterwards the queue is full, or what was in the pool, but for one buffer, does not make up another work request |
| RecvDispatchers.RecvDispatcher.PushEntries | src/ibnet/msgrc/RecvDispatcher.cpp:415-456 | one entry per buffer with data, with the remaining length worked out again and the flow control value on the first |
| RecvDispatchers.RecvDispatcher.ProcessOne | src/ibnet/msgrc/RecvDispatcher.cpp:380-489 | a completion's entries go to the ring, its unused buffers and its work request object to their pools; no exception |
| RecvDispatchers.RecvDispatcher.ProcessCompletions | src/ibnet/msgrc/RecvDispatcher.cpp:341-497 | all completions of a poll, in order |
| RecvDispatchers.RecvDispatcher.DispatchReceived | src/ibnet/msgrc/RecvDispatcher.cpp:499-531 | the entries the handler took leave the front of the ring |
| RecvDispatchers.RecvDispatcher.Dispatch | src/ibnet/msgrc/RecvDispatcher.cpp:172-193 | for every choice of the adapter, which completes posted work requests in any order and lets a poll find any number of them, and of the handler, with messages arriving and buffers coming back between the steps, a dispatch in the source's order is a run of the machine: poll what the queue and the ring allow, refill until the queue is full or the pool used up, process everything polled, deliver what the handler accepts; so everything proved of runs holds of it |
| RecvDispatchers.RecvDispatcher.PollAndRefill | src/ibnet/msgrc/RecvDispatcher.cpp:195-339 | the first half of a dispatch: it polls what the queue and the ring allow, and refills until the queue is full or the pool used up |
| RecvDispatchers.RecvDispatcher.ShowPoll | src/ibnet/msgrc/RecvDispatcher.cpp:195-236 | a poll of the class is a poll of the machine |
| RecvDispatchers.RecvDispatcher.ShowRefill | src/ibnet/msgrc/RecvDispatcher.cpp:238-339 | a refill of the class is a refill of the machine |
| RecvDispatchers.RecvDispatcher.ShowProcess | src/ibnet/msgrc/RecvDispatcher.cpp:341-497 | processing in the class is processing all in the machine |
| RecvDispatchers.RecvDispatcher.ShowDeliver | src/ibnet/msgrc/RecvDispatcher.cpp:499-531 | a delivery of the class is a delivery of the machine |
| RecvDispatchers.RecvDispatcher.Meanwhile | src/ibnet/dx/RecvBufferPool.cpp:195-238 | arrivals and returns between two steps are steps of the machine, and the pool has room for every return |
| RecvDispatchers.RecvDispatcher.ShowsInit | src/ibnet/msgrc/RecvDispatcher.cpp:33-51 | a new dispatcher shows the machine's initial state |
| RecvDispatchers.RecvDispatcher.ShowsArrive | src/ibnet/msgrc/RecvDispatcher.cpp:195-217 | an arriving message, received into any of the posted work requests, changes nothing in the dispatcher and is an arrival of the machine |
| RecvDispatchers.RecvDispatcher.HandlerReturn | src/ibnet/dx/RecvBufferPool.cpp:195-238 | a return by the handler never overflows the pool and is the machine's return |
| RecvBufferPools.RecvBufferPool.constructor | src/ibnet/dx/RecvBufferPool.cpp:27-75 | as many buffers as the size allows, cut to 32 bits; they are disjoint consecutive slices inside the region, and all are published |
| RecvBufferPools.RecvBufferPool.GetBuffer | src/ibnet/dx/RecvBufferPool.cpp:90-131 | the oldest published buffer, or none if there is none; the null check cannot fire |
| RecvBufferPools.RecvBufferPool.GetBuffers | src/ibnet/dx/RecvBufferPool.cpp:133-193 | the oldest min(count, published) buffers, or min(count, published - 1) once the ring has wrapped; the null check cannot fire |
| RecvBufferPools.RecvBufferPool.ReturnBuffer | src/ibnet/dx/RecvBufferPool.cpp:195-238 | the buffer goes to the back; an exception exactly if all buffers are in the pool |
| RecvBufferPools.RecvBufferPool.ReturnBuffers | src/ibnet/dx/RecvBufferPool.cpp:240-293 | with room the buffers go to the back in order; without room an exception, the overflow one exactly if the new back index meets the front |
| RecvBufferPools.Available | src/ibnet/dx/RecvBufferPool.cpp:160-171 | what a batch take sees is the published number, less one if the ring has wrapped |
| PoolProtocol.EveryRun | src/ibnet/dx/RecvBufferPool.cpp:133-293 | every interleaving of one consumer and any number of waiting returners keeps: each buffer in one place, published slots filled, reserved slots empty until written, indices consistent |
| PoolProtocol.StepInv | src/ibnet/dx/RecvBufferPool.cpp:133-293 | every atomic step keeps the invariant |
| PoolProtocol.ReserveInv | src/ibnet/dx/RecvBufferPool.cpp:246-259 | reserving slots keeps the invariant |
| PoolProtocol.WriteInv | src/ibnet/dx/RecvBufferPool.cpp:261-272 | filling a reserved slot keeps the invariant |
| PoolProtocol.PublishInv | src/ibnet/dx/RecvBufferPool.cpp:274-286 | publishing in turn keeps the invariant |
| PoolProtocol.TakeSlotInv | src/ibnet/dx/RecvBufferPool.cpp:173-183 | taking a published slot keeps the invariant |
| PoolProtocol.FinishInv | src/ibnet/dx/RecvBufferPool.cpp:185-187 | moving the front on keeps the invariant |
| PoolProtocol.NoExceptions | src/ibnet/dx/RecvBufferPool.cpp:176-268 | in every run none of the three exceptions (overflow, occupied slot, null buffer) is thrown |
| PoolProtocol.NeverOverflows | src/ibnet/dx/RecvBufferPool.cpp:252-256 | the overflow test never fires, since the tickets in use and the returned buffers are different buffers |
| PoolProtocol.NeverOverwrites | src/ibnet/dx/RecvBufferPool.cpp:262-269 | the slot about to be filled is empty |
| PoolProtocol.NeverNull | src/ibnet/dx/RecvBufferPool.cpp:174-180 | the slot about to be taken holds the buffer with the next ticket |
| PoolProtocol.HandedOutInOrder | src/ibnet/dx/RecvBufferPool.cpp:173-187 | in every run buffers are handed out in the order in which their slots were reserved, published slots hold buffers, and no buffer is in two slots |
| PoolProtocol.LookSees | src/ibnet/dx/RecvBufferPool.cpp:143-171 | at any moment of any run a batch take sees the published number, less one if wrapped, and an empty ring exactly if nothing is published |
| PoolProtocol.LookTakes | src/ibnet/dx/RecvBufferPool.cpp:143-171 | at any moment of any run a batch take is going to take min(asked for, published), less one if all are asked for and the ring has wrapped; a single take takes one |
| PoolProtocol.TurnIsTicket | src/ibnet/dx/RecvBufferPool.cpp:283-284 | the comparison of the published index with the reserved one tells exactly whose turn it is |
| PoolProtocol.SomebodyGoesOn | src/ibnet/dx/RecvBufferPool.cpp:274-286 | while something is reserved and not published, the returner with the oldest reservation can go on |
| PoolProtocol.NobodyStuck | src/ibnet/dx/RecvBufferPool.cpp:133-293 | a returner can always reserve and go on filling, and the consumer can start whenever something is published and finish what it has started |
| PoolProtocol.AttemptExactly | src/ibnet/dx/RecvBufferPool.cpp:283-286 | an attempt of the publish loop as written is what its comment asks if and only if it is this returner's turn; otherwise it loses its index and the next attempt publishes the slots behind the back |
| PoolProtocol.TwoAttemptsExactly | src/ibnet/dx/RecvBufferPool.cpp:283-286 | out of turn, what two attempts publish is filled if and only if the returners before this one have written those slots already |
| PoolProtocol.SerializedRuns | src/ibnet/dx/RecvBufferPool.cpp:228-231 | every run of the loop as written in which returns do not overlap is a run of the protocol and ends in the same state, so everything proved of those runs holds of it |
| PoolProtocol.SerializedReturns | src/ibnet/dx/RecvBufferPool.cpp:228-231 | with one return at a time an attempt of the loop as written is a publication in turn |
| PoolProtocol.WrittenLoopFails | src/ibnet/dx/RecvBufferPool.cpp:228-231 | a run of the loop as written with two returners after which it has published an empty slot and the consumer throws |
| MpmcQueue.EveryRun | libs/spdlog/details/mpmc_bounded_q.h:83-134 | every interleaving of any number of producers and consumers keeps the sequence number invariant |
| MpmcQueue.StepInv | libs/spdlog/details/mpmc_bounded_q.h:83-134 | every atomic step keeps it |
| MpmcQueue.RefinesFifo | libs/spdlog/details/mpmc_bounded_q.h:83-134 | every step is a step of a bounded first-in first-out queue: a producer's ticket appends its value, a consumer's ticket removes the oldest, nothing else changes it |
| MpmcQueue.TicketsMatch | libs/spdlog/details/mpmc_bounded_q.h:83-134 | in every run the value read under consumer ticket k is the value stored under producer ticket k, read once, and positions keep dequeue <= enqueue <= dequeue + size |
| MpmcQueue.OneOwner | libs/spdlog/details/mpmc_bounded_q.h:94-108 | between drawing a ticket and storing the sequence number a cell has one owner |
| MpmcQueue.EnqueueDraws | libs/spdlog/details/mpmc_bounded_q.h:89-96 | a successful producer swap finds a free cell and room in the queue |
| MpmcQueue.DequeueDraws | libs/spdlog/details/mpmc_bounded_q.h:117-124 | a successful consumer swap finds a filled cell that holds the value of its ticket |
| MpmcQueue.EmptyForAnInstant | libs/spdlog/details/mpmc_bounded_q.h:136-148 | whatever the others do meanwhile, the answer of `is_empty` is the truth of the instant at which it read the back |
| MpmcQueue.FullExactly | libs/spdlog/details/mpmc_bounded_q.h:88-106 | a producer is told full if and only if its position is the present one and the value one round before is not taken or its cell not released; it goes on to the swap if and only if its cell is free |
| MpmcQueue.EmptyExactly | libs/spdlog/details/mpmc_bounded_q.h:116-133 | a consumer is told empty if and only if its position is the present one and no value was announced under it |
| MpmcQueue.SoloEnqueue | libs/spdlog/details/mpmc_bounded_q.h:83-108 | a producer that is not disturbed puts its value in, whenever the next cell is free |
| MpmcQueue.SoloDequeue | libs/spdlog/details/mpmc_bounded_q.h:111-134 | a consumer that is not disturbed reads exactly the oldest value, whenever that is announced |
| MpmcQueue.SoloEmpty | libs/spdlog/details/mpmc_bounded_q.h:111-134 | a consumer that is not disturbed is told empty when the queue is |
| MpmcQueue.LoneConsumerReads | libs/spdlog/details/mpmc_bounded_q.h:111-134 | a lone consumer reads the values in ticket order, each once: what it reads along a run is the part between what it had read before and after |
| LogDrain.WorkOnQueue | libs/spdlog/details/async_log_helper.h:267-291 | the worker on the queue, with any number of producers: it logs the first values put in, each once and in order, every sink those of its level or above; when it leaves, everything whose ticket precedes the terminate message is logged, in ticket order, and flushing all sinks was the last thing it did |
| LogDrain.TakenFromQueue | libs/spdlog/details/async_log_helper.h:295-337 | what a lone consumer has taken after any number of its turns is the beginning of what was put into the queue |
| LogWorkers.AsyncLogHelper.WorkerLoop | libs/spdlog/details/async_log_helper.h:267-291 | for any answers of the queue the worker logs exactly the messages taken, each once and in order; the texts a sink has written are those of the messages of its level or above, in order; it leaves only at the first empty answer behind a terminate message, and the last thing it does is to flush all sinks |
| LogWorkers.DrainedBeforeTerminate | libs/spdlog/details/async_log_helper.h:225-235 | when what was taken in ticket order includes a terminate message, the calls of all messages with earlier tickets come first; `WorkOnQueue` joins this with the queue |
| LogWorkers.AsyncLogHelper.ProcessNextMsg | libs/spdlog/details/async_log_helper.h:295-337 | a message is logged, by exactly the sinks whose level it has, or noted; an empty answer flushes every sink once if that was asked for or is due, and ends the worker exactly behind a terminate message |
| LogWorkers.AsyncLogHelper.LogMessage | libs/spdlog/details/async_log_helper.h:313-324 | every sink is asked for the level exactly once, in order; it writes the text, once and directly behind that, if and only if the level of the message is at least its own; nothing else is called |
| LogWorkers.EverySinkWrites | libs/spdlog/details/async_log_helper.h:316-324 | over any list of messages every sink writes exactly the texts of the messages of its level or above, in order |
| LogWorkers.AsyncLogHelper.HandleFlushInterval | libs/spdlog/details/async_log_helper.h:340-350 | every sink is flushed once, in order, if that was asked for or the interval has passed; otherwise nothing is called |
| LogWorkers.AsyncLogHelper.PushMsg | libs/spdlog/details/async_log_helper.h:244-257 | for any answers of the queue: without discarding a push goes on until the queue has taken the message and then stops, with discarding it tries once |
| Handshake.ConnectedIsMutual | src/ibnet/con/ConnectionManager.cpp:357-494 | under any loss, repetition and reordering a connected node and its peer have both connected with each other's data, and the peer's own flags are complete |
| Handshake.EveryRun | src/ibnet/con/ConnectionManager.cpp:323-494 | in every run stored remote flags and every header ever sent stay below the sender's current flags |
| Handshake.StepInv | src/ibnet/con/ConnectionManager.cpp:323-494 | both handlers keep this |
| Handshake.DeliverSound | src/ibnet/con/ConnectionManager.cpp:390-493 | handling a truthful header keeps both nodes sound, and the reply is truthful |
| Handshake.NoRestart | src/ibnet/con/ConnectionManager.cpp:430-452 | between two nodes that are not restarted the check for a restarted peer never fires |
| Handshake.DiesOut | src/ibnet/con/ConnectionManager.cpp:473-493 | without repetition every delivery and every loss lowers a measure of missing flags and weighted packets, so replies die out |
| Handshake.EveryExchangeEnds | src/ibnet/con/ConnectionManager.cpp:323-494 | in every run of starts, deliveries and losses the number of deliveries and losses is at most the measure at the beginning and four for every start or retransmission, and nothing false is stored or said on the way |
| Handshake.ExchangeLength | src/ibnet/con/ConnectionManager.cpp:323-494 | an exchange has at most sixteen moves, four more for every packet already in flight, and five for every start, wherever the starts are |
| Handshake.ReplyIsLighter | src/ibnet/con/ConnectionManager.cpp:473-493 | a reply weighs less than the header it answers, unless flags are won |
| Handshake.TwoRetransmissions | src/ibnet/con/ConnectionManager.cpp:342-355 | from every sound state with both sides allocated, two retransmissions without loss by a side that is not complete connect both sides, and until then there is such a side |
| Handshake.FirstRetransmission | src/ibnet/con/ConnectionManager.cpp:342-355 | after one retransmission both are connected or one is one packet short |
| Handshake.SecondRetransmission | src/ibnet/con/ConnectionManager.cpp:342-355 | then only the waiting side is incomplete, and its retransmission connects both |
| ConnectionManagers.ConnectionManager.constructor | src/ibnet/con/ConnectionManager.cpp:69-77 | every connection id is free once |
| ConnectionManagers.ConnectionManager.AllocateConnection | src/ibnet/con/ConnectionManager.cpp:559-582 | a node without a connection gets one with an id no other node's connection has; other nodes are untouched |
| ConnectionManagers.ConnectionManager.RequestCreation | src/ibnet/con/ConnectionManager.cpp:154-172 | only an unavailable connection goes into creation, and the job is added if and only if the node is not connected and nobody's re-exchange flag is set |
| ConnectionManagers.ConnectionManager.GiveUp | src/ibnet/con/ConnectionManager.cpp:223-232 | after a timeout a connection in creation is unavailable again and the flag is cleared |
| ConnectionManagers.ConnectionManager.AskAgain | src/ibnet/con/ConnectionManager.cpp:154-172 | after a connection that was created on request is closed, asking for it again adds no job, since the flag is still set |
| ConnectionManagers.ConnectionManager.AskTwice | src/ibnet/con/ConnectionManager.cpp:154-172 | this state is reached: a node is asked for, its header opens the connection, it is closed and asked for again, and only the first request has added a job |
| ConnectionManagers.ConnectionManager.JobDispatchCloseConnection | src/ibnet/con/ConnectionManager.cpp:496-557 | the node is as if it had never been connected, its id is free again, and still every id has one owner |
| ConnectionManagers.ConnectionManager.JobDispatchCreateConnection | src/ibnet/con/ConnectionManager.cpp:323-355 | the connection is allocated if it is in creation, and the current flags are sent; nothing for undiscovered nodes; a null pointer if and only if there is neither a connection nor one in creation |
| ConnectionManagers.ConnectionManager.JobDispatchConnectConnection | src/ibnet/con/ConnectionManager.cpp:357-494 | on the table of connections a header does what the handshake says of one node; nothing for undiscovered nodes; the close and create jobs are added if and only if the connection was not open, the header's flags are complete, and the node had connected to an endpoint of another identity before |
| ConnectionManagers.ConnectionManager.Exchange | src/ibnet/con/ConnectionManager.cpp:390-493 | the step-by-step update of flags and state equals the handshake's transition, and field by field: the connection opens if and only if it was created and the header is complete; the two jobs are added if and only if, besides, the node had connected to an endpoint of another identity before; a reply is sent if and only if the header is not complete, or the connection was open already and the header reports other flags than the node has |
| ConnectionManagers.ExchangeFlags.FlagConnectionExchgState | src/ibnet/con/ConnectionState.h:166-175 | the compare-and-swap loop adds its flag to whatever was stored last: a flag is set afterwards if and only if it was stored or is the one to be added |
| JobQueues.JobQueue.constructor | src/ibnet/con/JobQueue.cpp:26-34 | an empty queue |
| JobQueues.JobQueue.PushBack | src/ibnet/con/JobQueue.cpp:49-75 | first in, first out through the overflow of the 32-bit counters; with one slot left the job is refused exactly in the last round of the counter; on a ring that has filled up the job takes the slot of the oldest |
| JobQueues.JobQueue.PopFront | src/ibnet/con/JobQueue.cpp:77-91 | the oldest job, or none exactly if the queue is empty or has filled up |
| JobQueues.JobQueue.IsEmpty | src/ibnet/con/JobQueue.cpp:93-99 | the answer is empty exactly if there is no job or the ring has filled up |
| JobQueues.WrittenTest | src/ibnet/con/JobQueue.cpp:57-59 | the capacity test as written fires if and only if one slot is left and the front is in the last round of its counter |
| JobQueues.FullLooksEmpty | src/ibnet/con/JobQueue.cpp:57-59 | with 1023 jobs in the ring of 1024 the next push succeeds and the queue then looks empty |
| JobQueues.WrapKeepsSlot | src/ibnet/con/JobQueue.cpp:61-63 | counters that overflow keep their slots, because the size divides 2^32 |
| JobProtocol.TakenInOrder | src/ibnet/con/JobQueue.cpp:49-91 | with any number of threads that add and one that takes, in every interleaving of their loads and stores in which no place is reserved on a full ring, the jobs come out in the order in which their places were reserved, each once |
| JobProtocol.ReserveExactly | src/ibnet/con/JobQueue.cpp:53-62 | a reservation that goes through keeps the invariant if and only if the ring is not full; on a full ring it reserves the slot of the oldest job |
| JobProtocol.EveryRun | src/ibnet/con/JobQueue.cpp:49-91 | every such run keeps: counters are numbers of jobs cut to 32 bits, every unpublished place belongs to one thread, stored jobs are in their slots, a reserved slot is free |
| JobProtocol.StepIsFifo | src/ibnet/con/JobQueue.cpp:49-91 | every step leaves the waiting jobs alone, adds the publishing thread's job behind them, or takes the first |
| JobProtocol.ReadSlotInv | src/ibnet/con/JobQueue.cpp:77-91 | the popper turns back exactly if the queue it saw was empty or full, and otherwise finds the oldest job, however old the counters it loaded |
| JobProtocol.SomebodyGoesOn | src/ibnet/con/JobQueue.cpp:62-71 | while a place is reserved and not published, the thread with the oldest one can go on |
| JobProtocol.PushAlone | src/ibnet/con/JobQueue.cpp:49-75 | a thread that is not disturbed adds its job behind those that wait, as long as two slots are left |
| JobProtocol.PopAlone | src/ibnet/con/JobQueue.cpp:77-91 | a popper that is not disturbed takes the oldest job, and turns back if and only if there is none or the ring has filled up |
| JobProtocol.TestExactly | src/ibnet/con/JobQueue.cpp:57-59 | on the counters a thread has loaded a push is refused if and only if there seemed to be one slot left, in the last round of the counter |
| JobProtocol.AttemptExactly | src/ibnet/con/JobQueue.cpp:66-71 | an attempt of the publish loop as written is a publication in turn if and only if it is this thread's turn; otherwise the next attempt publishes the place of another thread, whether it is filled or not |
| JobProtocol.SerializedRuns | src/ibnet/con/JobQueue.cpp:66-71 | every run of the loop as written in which pushes do not overlap and the ring is never full is a run of the protocol and ends in the same state |
| JobProtocol.WrittenLoopFails | src/ibnet/con/JobQueue.cpp:66-71 | a run of the loop as written with two pushers after which it has published a slot nobody has filled, which the popper goes on to read |
| Decimals.CountIsExact | libs/fmt/format.h:1018-1051 | for every 32-bit and every 64-bit value the shifted multiplication and the table give the decimal length |
| Decimals.CountIsLength | libs/fmt/format.h:1021-1026 | the count is the decimal length wherever the table reaches |
| Decimals.Tables | libs/fmt/format.cc:281-294 | the tables hold the powers of ten, with zero first |
| Decimals.NumeralLength | libs/fmt/format.h:1019-1020 | a numeral of k digits is of a number below 10^k and, from two digits on, at least 10^(k-1) |
| Decimals.ValueOfNumeral | libs/fmt/format.h:3755-3777 | the value of a numeral is the number |
| Decimals.NumeralOfValue | libs/fmt/format.h:3755-3777 | a string of digits without leading zeros is the numeral of its value |
| Decimals.LeadingZero | libs/fmt/format.h:3755-3777 | a leading zero does not change the value |
| Decimals.DigitOrder | libs/fmt/format.cc:263-268 | the ten digits are the characters from 0 to 9, in order |
| Decimals.NumeralOrder | libs/fmt/format.h:1083-1106 | of two numerals of one length the one that comes first as text is that of the smaller number |
| DecimalWriters.FormatDecimal | libs/fmt/format.h:1083-1106 | the backward writer fills exactly the place in front of the end with the numeral and its separators, and nothing else |
| DecimalWriters.PutDigit | libs/fmt/format.h:1071-1077 | a digit goes before the position, with the separator before it after every third digit |
| DecimalWriters.WriteWithSeparators | libs/fmt/format.h:3078-3088 | the size computed beforehand is exactly what the writer fills; counted from the right, every digit has behind it the digits below it and one separator for every three of them, with a separator directly behind the last digit of a group; the text without its separators is the plain decimal |
| DecimalWriters.GroupedLength | libs/fmt/format.h:3084-3085 | the length with separators is digits + separator * ((digits - 1) / 3) |
| DecimalWriters.GroupedInPlace | libs/fmt/format.h:1060-1106 | every digit and every separator is where it belongs, for every value and separator |
| DecimalWriters.UngroupedIsNumeral | libs/fmt/format.h:1060-1078 | removing the separators gives the plain decimal, for every value and separator |
| DecimalWriters.GroupedWithout | libs/fmt/format.h:1053-1057 | with an empty separator the text is the plain decimal |
| DecimalWriters.WriteDecimal | libs/fmt/format.h:1108-1111 | the writer without separators fills exactly the counted digits with the numeral |
| DecimalWriters.FormatInt | libs/fmt/format.h:3489-3518 | every signed 64-bit number, the smallest included, fits the buffer and is written as its sign and numeral |
| DecimalWriters.CountDigitsByDivision | libs/fmt/format.h:1029-1042 | the fallback that divides by 10000 gives the decimal length |
| DecimalWriters.ParseNonnegativeInt | libs/fmt/format.h:3757-3777 | a run of digits is read as its value up to the largest int and refused above it, without 32-bit overflow |
| DecimalWriters.PrintAndParse | libs/fmt/format.h:3755-3777 | what the printer writes the parser reads back up to the largest int, and refuses beyond |

## Left out

- Failed work completions, the disconnect path and reconnects: the counters are only claimed for runs without them.
- Verbs calls, queue pair setup, memory registration, sockets, discovery, statistics, timers and log texts.
- Weak memory orders: every model is sequentially consistent.
- Test and reservation of a pool return are one step; in the code the front is read separately
  (`src/ibnet/dx/RecvBufferPool.cpp:197-211`).
- Handle counting, the wait of a graceful close, the counter of open connections and the listeners of the connection
  manager. Two nodes of `Handshake` are one incarnation each; a restarted peer is a case of the job handler. The code
  has no check for running out of connection ids, which the model excludes.
- Positions and sequence numbers of the logging queue are unbounded; the 64-bit wrap-around is not modelled. The mask
  is a remainder, which it is for the powers of two the constructor accepts.
- The worker of the logger takes the clock and, in `LogWorkers`, the answers of the queue as parameters; `LogDrain`
  takes them from a run of the queue. Sinks do not throw, and waiting for an empty queue on a flush is not modelled.
- The table of digit pairs is given by a formula; width, padding, prefixes and other bases of the integer writer.
- `m_nonReturnedBuffers` of the buffer pool, which its constructor does not set.
- The destructor of the job queue.
- RecvBufferPools.RecvBufferPool.constructor: leaves out a number of buffers that is 2^32 - 1 in 32 bits, for which
  the ring with its gap would have no slot; sums of indices are unbounded, which matters above 2^31 buffers.
- SendDispatchers.SendDispatcher.PollCompletions: takes the polled completions as a parameter; where the code would
  write past the end of the node list, the model stops and says so. `IndexRoom` gives a condition under which it
  does not.
- SendDispatchers.SendDispatcher.Dispatch: takes the answer of the handler, the time-out of the connection and the
  polled completions as parameters; the connected nodes are those the connection manager has opened before.
- SendDispatchers.SendDispatcher.PostWorkRequests: the adapter takes the list; a refusal for lack of memory is a failed
  verbs call.
- RecvDispatchers.RecvDispatcher.ProcessCompletions: asks for the room that `RoomForAll` proves there is in every run.
- JobQueues.JobQueue.PushBack: promises the order of the jobs as long as the ring is not full before the push.
- JobProtocol.TakenInOrder: for threads that wait their turn with the index they reserved, and rings that are never
  full at a reservation; `ReserveExactly`, `AttemptExactly` and `WrittenLoopFails` say what happens otherwise.
- ConnectionManagers.ConnectionManager.JobDispatchCloseConnection: without the availability counter and the wait for
  threads that still hold the connection.
- ConnectionManagers.ConnectionManager.JobDispatchConnectConnection: without the availability counter, the counter of
  open connections and the listener.
- ConnectionManagers.ConnectionManager.Exchange: as above.
- ConnectionManagers.ConnectionManager.RequestCreation: one caller at a time; the wait for the connection and the
  repetition of the job are left out.
- Handshake.TwoRetransmissions: speaks of retransmissions without loss; with loss only safety and dying out are
  claimed.
