/** The receive dispatcher: what its four steps do to the ring, the pools and its own fields, and that a dispatch
    is a run of the state machine of `RecvRuns`. */
module RecvDispatchers {
  import opened Arithmetic
  import opened Finite
  import opened Rings
  import opened Streams
  import opened RecvBuffers
  import opened RecvRuns
  import opened RecvSafety
  import opened RecvRequests
  import opened WorkRequestPools
  import opened IncomingRingBuffers
  import opened RecvBufferPools

  class RecvDispatcher {
    const setup: Setup
    const ring: IncomingRingBuffer
    const wrPool: RecvWorkRequestPool
    const bufferPool: RecvBufferPool
    /** The SGE list of every work request object of the pool. */
    var requests: seq<seq<nat>>
    /** The successor of every work request object in the list it was posted in. */
    var links: seq<Option<nat>>
    /** The polled completions, `m_workComps[0..m_received)`. */
    var workComps: seq<Completion>
    var recvQueuePending: nat
    /** The work requests the adapter has: those that are complete, in that order, and then the others. */
    ghost var outstanding: seq<nat>

    ghost predicate Valid()
      reads this`requests, this`links, ring, ring.entries, wrPool, wrPool.queue, bufferPool, bufferPool.queue
    {
      && setup.Valid() && |links| == |requests|
      && ring.Valid() && wrPool.Valid() && bufferPool.Valid()
      && wrPool.queue != bufferPool.queue
      && wrPool.queue as object != ring.entries && bufferPool.queue as object != ring.entries
      && ring.size == setup.RingSize()
      && wrPool.poolSize == 2 * setup.queueSize == |requests|
      && bufferPool.poolSize == setup.count && bufferPool.bufferSize == setup.size
    }

    constructor (setup: Setup, bufferPool: RecvBufferPool)
      requires setup.Valid() && bufferPool.Valid()
      requires bufferPool.poolSize == setup.count && bufferPool.bufferSize == setup.size
      ensures Valid() && this.setup == setup && this.bufferPool == bufferPool
      ensures fresh(ring) && fresh(ring.entries) && fresh(wrPool) && fresh(wrPool.queue)
      ensures ring.Contents() == [] && workComps == [] && recvQueuePending == 0 && outstanding == []
      ensures ring.size == setup.queueSize * setup.maxSges
      ensures wrPool.free == Indices(2 * setup.queueSize)
    {
      this.setup := setup;
      this.bufferPool := bufferPool;
      RoomForOne(setup.queueSize, setup.maxSges);
      ring := new IncomingRingBuffer(setup.queueSize * setup.maxSges);
      wrPool := new RecvWorkRequestPool(setup.queueSize * 2);
      requests := Repeat([], setup.queueSize * 2);
      links := Repeat(None, setup.queueSize * 2);
      workComps := [];
      recvQueuePending := 0;
      outstanding := [];
    }

    /** Polls no more completions than the ring can take if each of them fills all its buffers. */
    method Poll(ready: seq<Completion>) returns (received: nat)
      requires Valid() && |ready| <= recvQueuePending && |ready| <= |outstanding|
      modifies this`workComps, this`recvQueuePending, this`outstanding
      ensures received == Min(|ready|, PollLimit(ring.NumFreeEntries(), setup.maxSges, setup.queueSize))
      ensures received * setup.maxSges <= ring.NumFreeEntries()
      ensures received == |ready| || received == setup.queueSize
              || ring.NumFreeEntries() < (received + 1) * setup.maxSges
      ensures ready != [] && ring.NumFreeEntries() >= setup.maxSges ==> received > 0
      ensures workComps == ready[..received] && recvQueuePending == old(recvQueuePending) - received
      ensures outstanding == old(outstanding)[received..]
    {
      hide IncomingRingBuffer.Valid, RecvBufferPool.Valid, RecvWorkRequestPool.Valid, IncomingRingBuffer.Contents;
      WholeGroups(ring.NumFreeEntries(), setup.maxSges);
      SomeGroup(ring.NumFreeEntries(), setup.maxSges);
      FewerGroups(ring.NumFreeEntries(), setup.maxSges, |ready|, setup.queueSize);
      var ringBufferFree: nat := ring.NumFreeEntries() / setup.maxSges;
      if ringBufferFree > 0 {
        if ringBufferFree > setup.queueSize {
          ringBufferFree := setup.queueSize;
        }
        received := if |ready| <= ringBufferFree then |ready| else ringBufferFree;
        workComps := ready[..received];
        recvQueuePending := recvQueuePending - received;
      } else {
        received := 0;
        workComps := [];
      }
      outstanding := outstanding[received..];
    }
  
    /** Every work request object is in one place, if the first `i` completions are done. */
    ghost predicate Single(i: nat)
      requires i <= |workComps|
      reads this`requests, this`workComps, this`outstanding, wrPool`free
    {
      OneUse(wrPool.free, Ids(workComps[i..]), outstanding, |requests|)
    }

    ghost function Outstanding(): seq<seq<nat>>
      reads this`requests, this`outstanding
    {
      BuffersOf(outstanding, requests)
    }

    ghost function Unprocessed(i: nat): (ws: seq<Work>)
      requires i <= |workComps|
      reads this`requests, this`workComps
      ensures |ws| == |workComps| - i
    {
      WorksOf(workComps[i..], requests)
    }

    /** Takes a work request object and gives it an SGE list. */
    method PrepareRequest(buffers: seq<nat>) returns (request: nat)
      requires Valid() && Single(0) && wrPool.free != []
      modifies this`requests, this`links, this`outstanding, wrPool`front, wrPool`free, wrPool.queue
      ensures Valid() && Single(0) && wrPool.free == old(wrPool.free)[1..]
      ensures Outstanding() == old(Outstanding()) + [buffers] && Unprocessed(0) == old(Unprocessed(0))
      ensures request == old(wrPool.free)[0] && request < old(|links|) && links == old(links)[request := None]
    {
      hide IncomingRingBuffer.Valid, RecvBufferPool.Valid, RecvWorkRequestPool.Valid, OneUse, Ids, WorksOf, BuffersOf;
      UseIds(wrPool.free, Ids(workComps[0..]), outstanding, |requests|);
      UsePop(wrPool.free, Ids(workComps[0..]), outstanding, |requests|);
      var r := wrPool.Pop();
      if r.Err? {
        assert false;
      }
      WorksFrame(workComps[0..], requests, r.value, buffers);
      BuffersFrame(outstanding, requests, r.value, buffers);
      request := r.value;
      requests := requests[request := buffers];
      links := links[request := None];
      BuffersPush(outstanding, requests, r.value);
      outstanding := outstanding + [r.value];
    }

    lemma Sizes()
      requires Valid()
      ensures setup.Valid() && bufferPool.poolSize == setup.count && ring.size == setup.RingSize()
      ensures wrPool.poolSize == |requests| == 2 * setup.queueSize
    {}

    /** Builds as many work requests with full SGE lists as the buffers allow. */
    method PrepareRequests(refs: seq<nat>, toQueue: nat) returns (recvWRs: seq<nat>, queued: nat)
      requires Valid() && Single(0) && toQueue <= |wrPool.free|
      modifies this`requests, this`links, this`outstanding, wrPool`front, wrPool`free, wrPool.queue
      ensures Valid() && Single(0)
      ensures queued == Requests(|refs|, setup.maxSges, toQueue)
      ensures wrPool.free == old(wrPool.free)[queued..]
      ensures recvWRs == old(wrPool.free)[..queued] && Unlinked(links, recvWRs)
      ensures Outstanding() == old(Outstanding()) + Groups(refs, setup.maxSges, queued)
      ensures Unprocessed(0) == old(Unprocessed(0))
    {
      hide Valid, Single, Outstanding, Unprocessed, Requests, Groups, Unlinked;
      Sizes();
      NoLinks(links);
      NoGroups(refs, setup.maxSges);
      recvWRs, queued := [], 0;
      var buffersPos := 0;
      for i := 0 to toQueue
        invariant Valid() && Single(0) && queued == i && buffersPos == queued * setup.maxSges <= |refs|
        invariant wrPool.free == old(wrPool.free)[queued..]
        invariant recvWRs == old(wrPool.free)[..queued] && Unlinked(links, recvWRs)
        invariant Outstanding() == old(Outstanding()) + Groups(refs, setup.maxSges, queued)
        invariant Unprocessed(0) == old(Unprocessed(0))
      {
        if buffersPos + setup.maxSges > |refs| {
          GroupsEnd(|refs|, setup.maxSges, queued, toQueue);
          return;
        }
        GroupsPush(refs, setup.maxSges, queued);
        PrefixStep(old(wrPool.free), queued);
        ghost var before := links;
        var request := PrepareRequest(refs[buffersPos..buffersPos + setup.maxSges]);
        UnlinkedPush(before, recvWRs, request);
        recvWRs := recvWRs + [request];
        buffersPos := buffersPos + setup.maxSges;
        queued := queued + 1;
      }
      GroupsAll(|refs|, setup.maxSges, toQueue);
    }

    /** Buffers from the pool, for at most `count` SGEs. */
    method TakeBuffers(count: nat) returns (refs: seq<nat>)
      requires Valid() && Single(0)
      modifies bufferPool`front, bufferPool`free, bufferPool.queue
      ensures Valid() && Single(0) && Outstanding() == old(Outstanding()) && Unprocessed(0) == old(Unprocessed(0))
      ensures refs <= old(bufferPool.free) && bufferPool.free == old(bufferPool.free)[|refs|..]
      ensures var free := |old(bufferPool.free)|;
              |refs| == Min(count, free) || (free > 0 && |refs| == Min(count, free - 1))
    {
      var refsMemReg := new nat[count];
      var numBufs := bufferPool.GetBuffers(refsMemReg, count);
      refs := refsMemReg[..numBufs];
    }

    /** Buffers go back to the pool; it cannot overflow as long as it gets back no more than it gave. */
    method GiveBack(ghost i: nat, refs: seq<nat>)
      requires Valid() && i <= |workComps| && Single(i) && |bufferPool.free| + |refs| <= setup.count
      modifies bufferPool`back, bufferPool`backRes, bufferPool`free, bufferPool.queue
      ensures Valid() && Single(i) && Outstanding() == old(Outstanding()) && Unprocessed(i) == old(Unprocessed(i))
      ensures bufferPool.free == old(bufferPool.free) + refs
    {
      var r := bufferPool.ReturnBuffers(refs);
      if r.Failed? {
        assert false;
      }
    }

    /** Links the work requests of a list, each to the next one. */
    method ChainRequests(recvWRs: seq<nat>)
      requires Valid() && recvWRs != [] && Distinct(recvWRs) && Unlinked(links, recvWRs)
      modifies this`links
      ensures Valid() && Linked(links, recvWRs)
    {
      for i := 0 to |recvWRs| - 1
        invariant |links| == |requests| && forall k :: 0 <= k < |recvWRs| ==> recvWRs[k] < |links|
        invariant forall k :: 0 <= k < |recvWRs| ==>
                    links[recvWRs[k]] == if k < i then Some(recvWRs[k + 1]) else None
      {
        assert forall k :: 0 <= k < |recvWRs| && k != i ==> recvWRs[k] != recvWRs[i];
        links := links[recvWRs[i] := Some(recvWRs[i + 1])];
      }
    }

    lemma FreeAreDistinct()
      requires Valid() && Single(0)
      ensures Distinct(wrPool.free)
    {
      hide Occurs;
      forall x: nat ensures Occurs(wrPool.free, x) <= 1 {
        assert Occurs(wrPool.free, x) + Occurs(Ids(workComps[0..]), x) + Occurs(outstanding, x)
            == if x < |requests| then 1 else 0;
      }
      OnceIsDistinct(wrPool.free);
    }

    /** Takes buffers and posts them; those that do not make up a full SGE list go back to the pool. */
    method PostRequests() returns (refs: seq<nat>, queuedElems: nat)
      requires Valid() && Single(0) && |bufferPool.free| <= setup.count
      requires recvQueuePending < setup.queueSize && setup.queueSize - recvQueuePending <= |wrPool.free|
      modifies this`requests, this`links, this`outstanding
      modifies wrPool`front, wrPool`free, wrPool.queue
      modifies bufferPool`front, bufferPool`back, bufferPool`backRes, bufferPool`free, bufferPool.queue
      ensures Valid() && Single(0) && Unprocessed(0) == old(Unprocessed(0))
      ensures Refilled(setup, old(bufferPool.free), recvQueuePending, |refs|)
      ensures queuedElems == RefillCount(setup, recvQueuePending, |refs|) <= |old(wrPool.free)|
      ensures wrPool.free == old(wrPool.free)[queuedElems..]
      ensures queuedElems > 0 ==> Linked(links, old(wrPool.free)[..queuedElems])
      ensures Outstanding() == old(Outstanding()) + RefillPosted(setup, old(bufferPool.free), recvQueuePending, |refs|)
      ensures bufferPool.free == RefillPool(setup, old(bufferPool.free), recvQueuePending, |refs|)
    {
      hide Valid, Single, Outstanding, Unprocessed, Requests, Groups, RefillCount, RefillPosted, RefillPool, Unlinked,
           Linked;
      Sizes();
      ghost var free := bufferPool.free;
      var toQueueElems := setup.queueSize - recvQueuePending;
      refs := TakeBuffers(toQueueElems * setup.maxSges);
      FreeAreDistinct();
      var recvWRs;
      recvWRs, queuedElems := PrepareRequests(refs, toQueueElems);
      var buffersPos := queuedElems * setup.maxSges;
      LeftOver(setup, free, refs, recvQueuePending, queuedElems, buffersPos);
      if buffersPos < |refs| {
        GiveBack(0, refs[buffersPos..]);
      }
      if queuedElems > 0 {
        ChainRequests(recvWRs);
      }
    }

    /** Refills the receive queue: the buffers that do not make up a full SGE list go back to the pool. */
    method Refill() returns (ghost got: nat, ghost count: nat)
      requires Valid() && Single(0)
      requires recvQueuePending <= setup.queueSize && setup.queueSize - recvQueuePending <= |wrPool.free|
      requires |bufferPool.free| <= setup.count
      modifies this`requests, this`links, this`outstanding, this`recvQueuePending
      modifies wrPool`front, wrPool`free, wrPool.queue
      modifies bufferPool`front, bufferPool`back, bufferPool`backRes, bufferPool`free, bufferPool.queue
      ensures Valid() && Single(0) && Unprocessed(0) == old(Unprocessed(0))
      ensures Refilled(setup, old(bufferPool.free), old(recvQueuePending), got)
      ensures count == RefillCount(setup, old(recvQueuePending), got) && count <= |old(wrPool.free)|
      ensures recvQueuePending == old(recvQueuePending) + count && wrPool.free == old(wrPool.free)[count..]
      ensures recvQueuePending == setup.queueSize
              || |old(bufferPool.free)| <= (recvQueuePending - old(recvQueuePending) + 1) * setup.maxSges
      ensures Outstanding()
           == old(Outstanding()) + RefillPosted(setup, old(bufferPool.free), old(recvQueuePending), got)
      ensures bufferPool.free == RefillPool(setup, old(bufferPool.free), old(recvQueuePending), got)
    {
      hide Valid, Single, Outstanding, Unprocessed, Requests;
      Sizes();
      NoGroups(bufferPool.free, setup.maxSges);
      got, count := 0, 0;
      if recvQueuePending < setup.queueSize {
        var refs, queuedElems := PostRequests();
        RefillGoesFar(setup, old(bufferPool.free), recvQueuePending, |refs|);
        recvQueuePending := recvQueuePending + queuedElems;
        got, count := |refs|, queuedElems;
      }
    }

    /** The entry at the back of the ring is filled in and then pushed. */
    method PushEntry(e: Entry)
      requires Valid() && |ring.Contents()| < ring.size
      modifies ring`usedEntries, ring`back, ring.entries
      ensures Valid() && ring.Contents() == old(ring.Contents()) + [e]
    {
      hide RecvBufferPool.Valid, RecvWorkRequestPool.Valid, IncomingRingBuffer.Contents;
      ring.SetBack(e);
      var r := ring.PushBack();
      if r.Err? {
        assert false;
      }
    }

    /** One entry for every buffer that holds data of the message. */
    method PushEntries(buffers: seq<nat>, source: nat, fc: nat, length: nat) returns (sgesUsed: nat)
      requires Valid() && length > 0
      requires |ring.Contents()| + |DataEntries(source, fc, buffers, setup.size, length)| <= ring.size
      modifies ring`usedEntries, ring`back, ring.entries
      ensures Valid() && sgesUsed == |DataEntries(source, fc, buffers, setup.size, length)|
      ensures ring.Contents() == old(ring.Contents()) + DataEntries(source, fc, buffers, setup.size, length)
    {
      hide Valid, IncomingRingBuffer.Contents, DataEntries;
      RingSizes();
      assert buffers[0..] == buffers;
      ghost var target := ring.Contents() + DataEntries(source, fc, buffers, setup.size, length);
      var flowControlData, dataRecvLenTmp := fc, length;
      sgesUsed := 0;
      for j := 0 to |buffers|
        invariant Valid() && ring.Valid() && sgesUsed == j && dataRecvLenTmp > 0
        invariant |ring.Contents()| == |old(ring.Contents())| + j
        invariant ring.Contents() + DataEntries(source, flowControlData, buffers[j..], setup.size, dataRecvLenTmp)
               == target
      {
        var k := if dataRecvLenTmp >= setup.size then setup.size else dataRecvLenTmp;
        var e := Entry(source, flowControlData, Some(buffers[j]), k);
        ghost var rest := if dataRecvLenTmp - k == 0 then []
                          else DataEntries(source, 0, buffers[j + 1..], setup.size, dataRecvLenTmp - k);
        PrefixStep(buffers, j);
        NextEntry(source, flowControlData, buffers[j..], setup.size, dataRecvLenTmp, e, rest);
        Associative(ring.Contents(), [e], rest);
        PushEntry(e);
        RingSizes();
        flowControlData := 0;
        dataRecvLenTmp := dataRecvLenTmp - k;
        sgesUsed := sgesUsed + 1;
        if dataRecvLenTmp == 0 {
          return;
        }
      }
      NoEntries(source, flowControlData, buffers[|buffers|..], setup.size, dataRecvLenTmp);
    }

    lemma RingSizes()
      requires Valid()
      ensures setup.Valid() && ring.Valid()
    {}

    /** The work request object of completion `i` goes back to its pool. */
    method ReleaseRequest(i: nat)
      requires Valid() && i < |workComps| && Single(i) && |wrPool.free| < wrPool.poolSize
      modifies wrPool`back, wrPool`free, wrPool.queue
      ensures Valid() && Single(i + 1) && |wrPool.free| == |old(wrPool.free)| + 1
    {
      hide IncomingRingBuffer.Valid, RecvBufferPool.Valid, RecvWorkRequestPool.Valid, OneUse;
      assert workComps[i..][1..] == workComps[i + 1..];
      assert Ids(workComps[i..])[1..] == Ids(workComps[i + 1..]);
      UsePush(wrPool.free, Ids(workComps[i..]), outstanding, |requests|);
      var r := wrPool.Push(workComps[i].request);
      if r.Err? {
        assert false;
      }
    }

    lemma NextWork(i: nat)
      requires Valid() && i < |workComps| && Single(i)
      ensures workComps[i].request < |requests|
      ensures Unprocessed(i) == [WorkOf(workComps[i], requests)] + Unprocessed(i + 1)
    {
      assert workComps[i..][1..] == workComps[i + 1..];
      UseIds(wrPool.free, Ids(workComps[i..]), outstanding, |requests|);
      assert Ids(workComps[i..])[0] in Ids(workComps[i..]);
    }

    /** A completion: its entries go to the ring, its unused buffers and its work request object to their pools. */
    method ProcessOne(i: nat, ghost w: Work)
      requires Valid() && i < |workComps| && Single(i)
      requires w == WorkOf(workComps[i], requests) && (w.length > 0 || w.fc > 0)
      requires |ring.Contents()| + |Entries(w, setup.size)| <= ring.size
      requires |bufferPool.free| + |Unused(w, setup.size)| <= setup.count && |wrPool.free| < wrPool.poolSize
      modifies ring`usedEntries, ring`back, ring.entries
      modifies wrPool`back, wrPool`free, wrPool.queue
      modifies bufferPool`back, bufferPool`backRes, bufferPool`free, bufferPool.queue
      ensures Valid() && Single(i + 1) && |wrPool.free| == |old(wrPool.free)| + 1
      ensures ring.Contents() == old(ring.Contents()) + Entries(w, setup.size)
      ensures bufferPool.free == old(bufferPool.free) + Unused(w, setup.size)
    {
      hide Valid, Single, IncomingRingBuffer.Contents, DataEntries;
      NextWork(i);
      RingSizes();
      var completion := workComps[i];
      var sgl := requests[completion.request];
      if completion.length == 0 {
        GiveBack(i, sgl);
        ReleaseRequest(i);
        if completion.fc == 0 {
          assert false;
        }
        PushEntry(Entry(completion.source, completion.fc, None, 0));
      } else {
        var sgesUsed := PushEntries(sgl, completion.source, completion.fc, completion.length);
        if |sgl| > sgesUsed {
          GiveBack(i, sgl[sgesUsed..]);
        }
        ReleaseRequest(i);
      }
    }

    /** All the completions, if there is room for what they bring. */
    method ProcessCompletions()
      requires Valid() && Single(0)
      requires forall i :: 0 <= i < |workComps| ==> workComps[i].length > 0 || workComps[i].fc > 0
      requires |ring.Contents()| + |AllEntries(Unprocessed(0), setup.size)| <= ring.size
      requires |bufferPool.free| + |AllUnused(Unprocessed(0), setup.size)| <= setup.count
      requires |wrPool.free| + |workComps| <= wrPool.poolSize
      modifies ring`usedEntries, ring`back, ring.entries
      modifies wrPool`back, wrPool`free, wrPool.queue
      modifies bufferPool`back, bufferPool`backRes, bufferPool`free, bufferPool.queue
      ensures Valid() && Single(|workComps|) && |wrPool.free| == |old(wrPool.free)| + |workComps|
      ensures ring.Contents() == old(ring.Contents()) + AllEntries(Unprocessed(0), setup.size)
      ensures bufferPool.free == old(bufferPool.free) + AllUnused(Unprocessed(0), setup.size)
    {
      hide Valid, Single, IncomingRingBuffer.Contents, Unprocessed, WorkOf, Entries, Unused;
      RingSizes();
      ghost var entries := ring.Contents() + AllEntries(Unprocessed(0), setup.size);
      ghost var buffers := bufferPool.free + AllUnused(Unprocessed(0), setup.size);
      for i := 0 to |workComps|
        invariant Valid() && ring.Valid() && Single(i) && |wrPool.free| == |old(wrPool.free)| + i
        invariant ring.Contents() + AllEntries(Unprocessed(i), setup.size) == entries
        invariant bufferPool.free + AllUnused(Unprocessed(i), setup.size) == buffers
      {
        NextWork(i);
        ghost var w := WorkOf(workComps[i], requests);
        LengthOfWork(workComps[i], requests);
        assert Unprocessed(i)[0] == w && Unprocessed(i)[1..] == Unprocessed(i + 1);
        Associative(ring.Contents(), Entries(w, setup.size), AllEntries(Unprocessed(i + 1), setup.size));
        Associative(bufferPool.free, Unused(w, setup.size), AllUnused(Unprocessed(i + 1), setup.size));
        ProcessOne(i, w);
        RingSizes();
      }
      assert Unprocessed(|workComps|) == [];
    }

    /** Hands the ring to the handler, which takes `processed` entries from the front. */
    method DispatchReceived(processed: nat)
      requires Valid() && processed <= |ring.Contents()|
      modifies ring`usedEntries, ring`front
      ensures Valid() && ring.Contents() == old(ring.Contents())[processed..]
    {
      if !ring.IsEmpty() {
        var r := ring.PopFront(processed);
        if r.Err? {
          assert false;
        }
      }
    }

    // The dispatcher as the machine of `RecvRuns`

    /** The fields show state `s` of the machine, the first `i` completions being done. */
    ghost predicate Shows(s: State, i: nat)
      reads this, ring, ring.entries, wrPool, wrPool.queue, bufferPool, bufferPool.queue
    {
      && Valid() && i <= |workComps| && Single(i)
      && bufferPool.free == s.pool && ring.Contents() == s.irb
      && recvQueuePending == s.pending && |wrPool.free| == s.freeRequests
      && Unprocessed(i) == s.work && Outstanding() == Lists(s.cq) + s.posted
    }

    /** Completions that a poll may find: any number of those the adapter has, oldest first. */
    ghost predicate Reported(s: State, ready: seq<Completion>)
      reads this`requests, this`outstanding
    {
      && |ready| <= |s.cq| && |ready| <= |outstanding| && Ids(ready) == outstanding[..|ready|]
      && WorksOf(ready, requests) == s.cq[..|ready|]
    }

    method ShowPoll(ready: seq<Completion>, ghost s: State) returns (ghost k: nat)
      requires Shows(s, |workComps|) && Inv(setup, s) && s.phase == Polling && Reported(s, ready)
      modifies this`workComps, this`recvQueuePending, this`outstanding
      ensures setup.Valid() && Enabled(setup, s, RecvRuns.Poll(k)) && Shows(Apply(setup, s, RecvRuns.Poll(k)), 0)
      ensures k <= |ready| && recvQueuePending + k == old(recvQueuePending) && |workComps| == k
      ensures k == |ready| || k == setup.queueSize || old(ring.NumFreeEntries()) < (k + 1) * setup.maxSges
    {
      hide Inv, IncomingRingBuffer.Valid, RecvBufferPool.Valid, RecvWorkRequestPool.Valid, Ids, Lists,
           IncomingRingBuffer.Contents, BuffersOf, WorksOf, OneUse, Apply, Enabled, PollLimit;
      ghost var ids := outstanding;
      Sizes();
      PendingOfInv(setup, s);
      k := Poll(ready);
      PollOfInv(setup, s, k);
      TakeCompletions(ready, requests, k);
      DropBuffers(ids, requests, k);
      UsePoll(wrPool.free, ids, k, |requests|);
      assert ids[..|ready|][..k] == ids[..k];
      assert s.cq[..|ready|][..k] == s.cq[..k];
      assert workComps[0..] == ready[..k];
      ListsDrop(s.cq, s.posted, k);
    }

    method ShowRefill(ghost s: State) returns (ghost got: nat)
      requires Shows(s, 0) && Inv(setup, s) && s.phase == Refilling
      modifies this`requests, this`links, this`outstanding, this`recvQueuePending
      modifies wrPool`front, wrPool`free, wrPool.queue
      modifies bufferPool`front, bufferPool`back, bufferPool`backRes, bufferPool`free, bufferPool.queue
      ensures setup.Valid() && Enabled(setup, s, RecvRuns.Refill(got))
      ensures Shows(Apply(setup, s, RecvRuns.Refill(got)), 0)
      ensures recvQueuePending == setup.queueSize
              || |old(bufferPool.free)| <= (recvQueuePending - old(recvQueuePending) + 1) * setup.maxSges
    {
      hide Conserved, InOrder, Stable, Resourced, Valid, Single, Unprocessed, Outstanding, Refilled, RefillPosted,
           RefillPool, RefillCount, Apply, Enabled, IncomingRingBuffer.Contents;
      ghost var count;
      Sizes();
      RoomForAll(setup, s);
      PendingBounds(setup, s);
      got, count := Refill();
      RefillStep(setup, s, got, count);
      Associative(Lists(s.cq), s.posted, RefillPosted(setup, s.pool, s.pending, got));
    }

    method ShowProcess(ghost s: State)
      requires Shows(s, 0) && Inv(setup, s) && s.phase == Processing
      modifies ring`usedEntries, ring`back, ring.entries
      modifies wrPool`back, wrPool`free, wrPool.queue
      modifies bufferPool`back, bufferPool`backRes, bufferPool`free, bufferPool.queue
      ensures Shows(Processed(setup, s), |workComps|)
    {
      hide Conserved, InOrder, Stable, Valid, Single, Outstanding, AllEntries, AllUnused;
      Sizes();
      RoomForAll(setup, s);
      Worthwhile(s);
      assert |workComps| == |s.work|;
      ProcessCompletions();
      assert Unprocessed(|workComps|) == [];
    }

    /** Every completion of a reachable state carries data or flow control. */
    lemma Worthwhile(s: State)
      requires Shows(s, 0) && Inv(setup, s)
      ensures forall i :: 0 <= i < |workComps| ==> workComps[i].length > 0 || workComps[i].fc > 0
    {
      assert workComps[0..] == workComps;
      WorkLengths(workComps, requests);
      forall i | 0 <= i < |workComps| ensures workComps[i].length > 0 || workComps[i].fc > 0 {
        assert s.work[i] in s.work;
      }
    }

    method ShowDeliver(accept: nat, ghost s: State) returns (ghost p: nat)
      requires Shows(s, |workComps|) && Inv(setup, s) && s.phase == Delivering
      modifies ring`usedEntries, ring`front
      ensures p == Min(accept, |s.irb|)
      ensures setup.Valid() && Enabled(setup, s, Deliver(p)) && Shows(Apply(setup, s, Deliver(p)), |workComps|)
      ensures p == accept || ring.Contents() == []
    {
      hide Conserved, Stable, Valid, Single, Outstanding, Unprocessed, IncomingRingBuffer.Contents, Items, AllReadable;
      Sizes();
      RingSizes();
      NeverStuck(setup, s, Min(accept, |s.irb|));
      var processed := Min(accept, ring.usedEntries);
      p := processed;
      DispatchReceived(processed);
    }

    /** Messages arrive, each for any of the posted work requests, as far as there is room for them. */
    ghost method ArrivalsShow(i: nat, s: State, messages: seq<Incoming>) returns (events: seq<Event>, last: State)
      requires Shows(s, i) && Inv(setup, s)
      decreases |messages|
      modifies this`outstanding
      ensures setup.Valid() && IsRun(setup, s, events) && last == Final(setup, s, events)
      ensures OnlyArrivals(events) && Shows(last, i) && Inv(setup, last)
      ensures last.phase == s.phase && last.held == s.held
    {
      hide Inv, Enabled, Apply, Shows;
      ShowsSetup(s, i);
      events, last := [], s;
      if messages != [] {
        var e := Arrive(messages[0].message, messages[0].place);
        if Enabled(setup, s, e) {
          ShowsArrive(s, i, e);
          StepInv(setup, s, e);
          OutsideStep(setup, s, e);
          events, last := ArrivalsShow(i, Apply(setup, s, e), messages[1..]);
          events := [e] + events;
        } else {
          events, last := ArrivalsShow(i, s, messages[1..]);
        }
      }
    }

    /** The handler returns several buffers, one after the other. */
    method HandlerReturns(backs: seq<Back>, ghost i: nat, ghost s: State) returns (ghost last: State)
      requires Shows(s, i) && Inv(setup, s) && Returnable(s.held, backs)
      decreases |backs|
      modifies bufferPool`back, bufferPool`backRes, bufferPool`free, bufferPool.queue
      ensures setup.Valid() && IsRun(setup, s, Returns(backs)) && last == Final(setup, s, Returns(backs))
      ensures Shows(last, i) && Inv(setup, last) && old(bufferPool.free) <= bufferPool.free
      ensures last.phase == s.phase && last.held == HeldAfter(s.held, backs)
    {
      hide Inv, Enabled, Apply, Shows;
      ShowsSetup(s, i);
      last := s;
      if backs != [] {
        var index := backs[0].index;
        CanReturn(setup, s, index);
        HandlerReturn(backs[0].buffer, index, i, s);
        StepInv(setup, s, Return(index));
        OutsideStep(setup, s, Return(index));
        last := HandlerReturns(backs[1..], i, Apply(setup, s, Return(index)));
        assert Returns(backs)[1..] == Returns(backs[1..]);
      }
    }

    /** What happens between two steps of a dispatch. */
    method Meanwhile(backs: seq<Back>, ghost messages: seq<Incoming>, ghost i: nat, ghost first: State,
                     ghost before: seq<Event>, ghost s: State)
      returns (ghost arrivals: seq<Event>, ghost last: State)
      requires Shows(s, i) && Inv(setup, s) && Returnable(s.held, backs)
      requires setup.Valid() && IsRun(setup, first, before) && s == Final(setup, first, before)
      modifies this`outstanding
      modifies bufferPool`back, bufferPool`backRes, bufferPool`free, bufferPool.queue
      ensures OnlyArrivals(arrivals) && IsRun(setup, first, before + (arrivals + Returns(backs)))
      ensures last == Final(setup, first, before + (arrivals + Returns(backs)))
      ensures Shows(last, i) && Inv(setup, last) && old(bufferPool.free) <= bufferPool.free
      ensures last.phase == s.phase && last.held == HeldAfter(s.held, backs)
    {
      hide Inv, Enabled, Apply, Shows, IsRun, Final, Returns, HeldAfter, Returnable, OnlyArrivals;
      ghost var mid;
      arrivals, mid := ArrivalsShow(i, s, messages);
      last := HandlerReturns(backs, i, mid);
      RunConcat(setup, s, arrivals, Returns(backs));
      RunConcat(setup, first, before, arrivals + Returns(backs));
    }

    /** The first half of a dispatch. */
    method PollAndRefill(ready: seq<Completion>, backs1: seq<Back>, backs2: seq<Back>, ghost messages1: seq<Incoming>,
                         ghost messages2: seq<Incoming>, ghost s: State)
      returns (ghost k: nat, ghost a1: seq<Event>, ghost got: nat, ghost a2: seq<Event>, ghost events: seq<Event>,
               ghost last: State)
      requires Shows(s, |workComps|) && Inv(setup, s) && s.phase == Polling && Reported(s, ready)
      requires Returnable(s.held, backs1 + backs2)
      modifies this`workComps, this`requests, this`links, this`outstanding, this`recvQueuePending
      modifies wrPool`front, wrPool`free, wrPool.queue
      modifies bufferPool`front, bufferPool`back, bufferPool`backRes, bufferPool`free, bufferPool.queue
      ensures setup.Valid() && OnlyArrivals(a1 + a2)
      ensures events == [RecvRuns.Poll(k)] + (a1 + Returns(backs1)) + [RecvRuns.Refill(got)] + (a2 + Returns(backs2))
      ensures IsRun(setup, s, events) && last == Final(setup, s, events)
      ensures Shows(last, 0) && Inv(setup, last) && last.phase == Processing
      ensures last.held == HeldAfter(s.held, backs1 + backs2)
      ensures k <= |ready| && |workComps| == k
      ensures k == |ready| || k == setup.queueSize || old(ring.NumFreeEntries()) < (k + 1) * setup.maxSges
      ensures recvQueuePending == setup.queueSize
              || |old(bufferPool.free)| <= (recvQueuePending + k - old(recvQueuePending) + 1) * setup.maxSges
    {
      hide Inv, Enabled, Apply, Reported, Shows, Processed, Valid, IsRun, Final, Returnable, HeldAfter, Returns;
      ShowsSetup(s, |workComps|);
      ReturnableSplit(s.held, backs1, backs2);
      NoStep(setup, s);
      k := ShowPoll(ready, s);
      ExtendRun(setup, s, [], s, RecvRuns.Poll(k));
      NextPhase(setup, s, RecvRuns.Poll(k));
      events := [RecvRuns.Poll(k)];
      assert [] + events == events;
      ghost var s1;
      a1, s1 := Meanwhile(backs1, messages1, 0, s, events, Apply(setup, s, RecvRuns.Poll(k)));
      events := events + (a1 + Returns(backs1));
      got := ShowRefill(s1);
      ExtendRun(setup, s, events, s1, RecvRuns.Refill(got));
      NextPhase(setup, s1, RecvRuns.Refill(got));
      events := events + [RecvRuns.Refill(got)];
      a2, last := Meanwhile(backs2, messages2, 0, s, events, Apply(setup, s1, RecvRuns.Refill(got)));
      events := events + (a2 + Returns(backs2));
    }

    /** The order of the four steps. With every choice of the adapter (`ready`, and the messages that arrive in
        between) and of the handler (`accept`, and the buffers it returns in between), a dispatch is a run of the
        machine that polls what the queue and the ring allow, refills until the queue is full or the pool used up,
        processes everything polled and delivers what the handler accepts. */
    method Dispatch(ready: seq<Completion>, accept: nat, backs1: seq<Back>, backs2: seq<Back>, backs3: seq<Back>,
                    ghost messages: seq<seq<Incoming>>, ghost s: State)
      returns (ghost turn: Turn, ghost last: State)
      requires Shows(s, |workComps|) && Inv(setup, s) && s.phase == Polling && Reported(s, ready)
      requires |messages| == 3 && Returnable(s.held, backs1 + backs2 + backs3)
      modifies this`workComps, this`requests, this`links, this`outstanding, this`recvQueuePending
      modifies ring`usedEntries, ring`front, ring`back, ring.entries
      modifies wrPool`front, wrPool`back, wrPool`free, wrPool.queue
      modifies bufferPool`front, bufferPool`back, bufferPool`backRes, bufferPool`free, bufferPool.queue
      ensures setup.Valid() && OnlyArrivals(turn.arrivals1 + turn.arrivals2 + turn.arrivals3)
      ensures var events := EventsOf(turn, backs1, backs2, backs3);
              IsRun(setup, s, events) && last == Final(setup, s, events)
      ensures Shows(last, |workComps|) && Inv(setup, last) && last.phase == Polling
      ensures turn.polled <= |ready| && turn.processed == turn.polled
      ensures turn.polled == |ready| || turn.polled == setup.queueSize
              || old(ring.NumFreeEntries()) < (turn.polled + 1) * setup.maxSges
      ensures recvQueuePending == setup.queueSize
              || |old(bufferPool.free)|
                 <= (recvQueuePending + turn.polled - old(recvQueuePending) + 1) * setup.maxSges
      ensures turn.delivered <= accept && (turn.delivered == accept || ring.Contents() == [])
    {
      hide Inv, Enabled, Apply, Reported, Shows, Processed, Valid, IsRun, Final, Returnable, HeldAfter, Returns;
      ShowsSetup(s, |workComps|);
      ReturnableSplit(s.held, backs1 + backs2, backs3);
      ghost var k, a1, got, a2, events, s2 := PollAndRefill(ready, backs1, backs2, messages[0], messages[1], s);
      ShowsWork(s2);
      ShowProcess(s2);
      ExtendProcessed(setup, s, events, s2);
      ProcessedPhase(setup, s2);
      events := events + ProcessEvents(|s2.work|);
      ghost var a3, s3 := Meanwhile(backs3, messages[2], |workComps|, s, events, Processed(setup, s2));
      events := events + (a3 + Returns(backs3));
      ghost var p := ShowDeliver(accept, s3);
      ExtendRun(setup, s, events, s3, Deliver(p));
      NextPhase(setup, s3, Deliver(p));
      last := Apply(setup, s3, Deliver(p));
      turn := Turn(k, a1, got, a2, |s2.work|, a3, p);
      assert EventsOf(turn, backs1, backs2, backs3) == events + [Deliver(p)];
    }

    /** A new dispatcher shows the initial state. */
    lemma ShowsInit(s: State)
      requires Valid() && Init(setup, s) && bufferPool.free == Indices(setup.count)
      requires ring.Contents() == [] && workComps == [] && recvQueuePending == 0 && outstanding == []
      requires wrPool.free == Indices(2 * setup.queueSize)
      ensures Shows(s, 0)
    {
      forall x: nat
        ensures Occurs(wrPool.free, x) + Occurs(Ids(workComps[0..]), x) + Occurs(outstanding, x)
             == if x < |requests| then 1 else 0
      {
        OccursIndices(2 * setup.queueSize, x);
      }
    }

    lemma ShowsWork(s: State)
      requires Shows(s, 0)
      ensures |s.work| == |workComps|
    {}

    lemma ShowsSetup(s: State, i: nat)
      requires Shows(s, i)
      ensures setup.Valid()
    {}

    /** An arriving message changes nothing here; its work request is the next one that is complete. */
    ghost method ShowsArrive(s: State, i: nat, e: Event)
      requires Shows(s, i) && e.Arrive? && Enabled(setup, s, e)
      modifies this`outstanding
      ensures Shows(Apply(setup, s, e), i)
    {
      hide Valid, Unprocessed, IncomingRingBuffer.Contents, BuffersOf, Ids, OneUse, Lists, Apply, Enabled, MessageWork,
           Earlier, Without;
      ShowsSetup(s, i);
      ArriveStep(setup, s, e);
      var n, w := |s.cq|, MessageWork(s.posted[e.place], e.message);
      assert |outstanding| == n + |s.posted|;
      BuffersEarlier(outstanding, requests, n, n + e.place);
      UseEarlier(wrPool.free, Ids(workComps[i..]), outstanding, |requests|, n, n + e.place);
      ListsEarlier(s.cq, w, s.posted, e.place);
      outstanding := Earlier(outstanding, n, n + e.place);
    }

    /** The handler returns what it holds, one entry at a time: the pool always has room. */
    method HandlerReturn(buffer: nat, ghost index: nat, ghost i: nat, ghost s: State)
      requires Shows(s, i) && Inv(setup, s) && index < |s.held| && s.held[index].buffer == Some(buffer)
      modifies bufferPool`back, bufferPool`backRes, bufferPool`free, bufferPool.queue
      ensures setup.Valid() && Shows(Apply(setup, s, Return(index)), i)
      ensures bufferPool.free == old(bufferPool.free) + [buffer]
    {
      hide Conserved, InOrder, Stable, Resourced, Valid, Single, Outstanding, Unprocessed, IncomingRingBuffer.Contents,
           EntryBuffers;
      Sizes();
      RoomForReturn(setup, s, index);
      GiveBack(i, [buffer]);
    }
  }

  lemma PendingOfInv(c: Setup, s: State)
    requires c.Valid() && Inv(c, s)
    ensures 0 <= s.pending <= c.queueSize && |s.cq| <= s.pending
  {
    hide Conserved, InOrder, Stable;
  }

  lemma PollOfInv(c: Setup, s: State, k: nat)
    requires c.Valid() && Inv(c, s) && s.phase == Polling && |s.irb| <= c.RingSize()
    requires k <= |s.cq| && k <= PollLimit(c.RingSize() - |s.irb|, c.maxSges, c.queueSize)
    ensures Enabled(c, s, RecvRuns.Poll(k))
    ensures var after := Apply(c, s, RecvRuns.Poll(k));
            && after.work == s.cq[..k] && after.cq == s.cq[k..] && after.pending == s.pending - k
            && after.pool == s.pool && after.posted == s.posted && after.irb == s.irb
            && after.freeRequests == s.freeRequests
  {
    hide Conserved, InOrder, Stable;
    PollStep(c, s, k);
  }

  lemma ArriveStep(c: Setup, s: State, e: Event)
    requires c.Valid() && e.Arrive? && Enabled(c, s, e)
    ensures e.place < |s.posted|
    ensures var after, w := Apply(c, s, e), MessageWork(s.posted[e.place], e.message);
            && w.buffers == s.posted[e.place]
            && after.cq == s.cq + [w] && after.posted == Without(s.posted, e.place) && after.work == s.work
            && after.pool == s.pool && after.irb == s.irb && after.pending == s.pending
            && after.freeRequests == s.freeRequests
  {
    hide Scatter, AllInRegion;
  }

  /** The entry of the first buffer, and those of the others if the message goes on. */
  lemma NextEntry(source: nat, fc: nat, buffers: seq<nat>, size: nat, length: nat, e: Entry, rest: seq<Entry>)
    requires buffers != [] && size > 0 && length > 0
    requires var k := if length >= size then size else length;
             && e == Entry(source, fc, Some(buffers[0]), k)
             && rest == if length - k == 0 then [] else DataEntries(source, 0, buffers[1..], size, length - k)
    ensures DataEntries(source, fc, buffers, size, length) == [e] + rest
  {}

  lemma NoEntries(source: nat, fc: nat, buffers: seq<nat>, size: nat, length: nat)
    requires buffers == [] && size > 0
    ensures DataEntries(source, fc, buffers, size, length) == []
  {}

  lemma SomeGroup(free: nat, n: nat)
    requires n > 0
    ensures free >= n ==> free / n > 0
  {
    if free >= n && free / n == 0 { WholeGroups(free, n); }
  }

  /** Taking fewer than there are groups leaves room. */
  lemma FewerGroups(free: nat, n: nat, ready: nat, queueSize: nat)
    requires n > 0
    ensures Min(ready, PollLimit(free, n, queueSize)) * n <= free
    ensures PollLimit(free, n, queueSize) == Min(free / n, queueSize)
  {
    MulMonotone(Min(ready, PollLimit(free, n, queueSize)), PollLimit(free, n, queueSize), n);
  }

  lemma ListsDrop(ws: seq<Work>, posted: seq<seq<nat>>, k: nat)
    requires k <= |ws|
    ensures Lists(ws[k..]) + posted == (Lists(ws) + posted)[k..]
  {}

  lemma NextPhase(c: Setup, s: State, e: Event)
    requires c.Valid() && Enabled(c, s, e)
    ensures e.Poll? ==> Apply(c, s, e).phase == Refilling
    ensures e.Refill? ==> Apply(c, s, e).phase == Processing
    ensures e.Deliver? ==> Apply(c, s, e).phase == Polling
    ensures e.Poll? || e.Refill? ==> Apply(c, s, e).held == s.held
  {
    hide Scatter, Groups, Items, Entries, Unused, Refilled;
  }

  lemma ProcessedPhase(c: Setup, s: State)
    ensures Processed(c, s).phase == Delivering && Processed(c, s).held == s.held
  {}

  lemma OutsideStep(c: Setup, s: State, e: Event)
    requires c.Valid() && Enabled(c, s, e) && (e.Arrive? || e.Return?)
    ensures Apply(c, s, e).phase == s.phase
    ensures Apply(c, s, e).held == if e.Return? then s.held[..e.index] + s.held[e.index + 1..] else s.held
  {
    hide Scatter, AllInRegion;
  }

  lemma CanReturn(c: Setup, s: State, i: nat)
    requires c.Valid() && i < |s.held|
    ensures Enabled(c, s, Return(i))
  {}

  lemma NoStep(c: Setup, s: State)
    requires c.Valid()
    ensures IsRun(c, s, []) && Final(c, s, []) == s
  {}

  /** A message, and the posted work request it is received into. */
  datatype Incoming = Incoming(message: Message, place: nat)

  /** A return: which of the entries the handler holds, and its buffer. */
  datatype Back = Back(index: nat, buffer: nat)

  /** The handler holds what it is going to return. */
  ghost predicate Returnable(held: seq<Entry>, backs: seq<Back>)
    decreases |backs|
  {
    backs == []
    || (var i := backs[0].index;
        i < |held| && held[i].buffer == Some(backs[0].buffer) && Returnable(held[..i] + held[i + 1..], backs[1..]))
  }

  ghost function HeldAfter(held: seq<Entry>, backs: seq<Back>): seq<Entry>
    requires Returnable(held, backs)
    decreases |backs|
  {
    if backs == [] then held
    else HeldAfter(held[..backs[0].index] + held[backs[0].index + 1..], backs[1..])
  }

  lemma {:induction false} ReturnableSplit(held: seq<Entry>, a: seq<Back>, b: seq<Back>)
    requires Returnable(held, a + b)
    decreases |a|
    ensures Returnable(held, a) && Returnable(HeldAfter(held, a), b)
    ensures HeldAfter(held, a + b) == HeldAfter(HeldAfter(held, a), b)
  {
    if a == [] {
      assert a + b == b;
    } else {
      ConcatTail(a, b);
      ReturnableSplit(held[..a[0].index] + held[a[0].index + 1..], a[1..], b);
    }
  }

  function Returns(backs: seq<Back>): (events: seq<Event>)
    ensures |events| == |backs| && forall i :: 0 <= i < |backs| ==> events[i] == Return(backs[i].index)
  {
    seq(|backs|, i requires 0 <= i < |backs| => Return(backs[i].index))
  }

  ghost predicate OnlyArrivals(events: seq<Event>) {
    forall i :: 0 <= i < |events| ==> events[i].Arrive?
  }

  /** One dispatch: how much is polled, refilled, processed and delivered, and what arrives in between. */
  datatype Turn = Turn(polled: nat, arrivals1: seq<Event>, got: nat, arrivals2: seq<Event>, processed: nat,
                       arrivals3: seq<Event>, delivered: nat)

  function EventsOf(t: Turn, backs1: seq<Back>, backs2: seq<Back>, backs3: seq<Back>): seq<Event> {
    [RecvRuns.Poll(t.polled)] + (t.arrivals1 + Returns(backs1)) + [RecvRuns.Refill(t.got)]
    + (t.arrivals2 + Returns(backs2)) + ProcessEvents(t.processed) + (t.arrivals3 + Returns(backs3))
    + [Deliver(t.delivered)]
  }
}
