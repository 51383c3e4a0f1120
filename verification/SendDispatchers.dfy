/** SendDispatcher: cutting work packages into requests, posting them, and polling their completions. */
module SendDispatchers {
  import opened Arithmetic
  import opened Finite
  import opened Rings
  import opened Streams
  import opened SendChunks
  import opened SendLedger
  import opened WorkRequestPools
  import opened CompletedWorkLists
  import Index = CompletionIndex

  /** ibv_send_wr: the context object, the gather list as a position in the SGE array, the immediate data, the
      next work request of the list it is posted in, and whether it asks for a completion. */
  datatype SendWr = SendWr(ctx: nat, sgList: nat, numSge: nat, source: nat, fc: U8,
                           next: Option<nat>, signaled: bool)

  datatype NextWorkPackage = NextWorkPackage(posBackRel: U32, posFrontRel: U32, flowControlData: U8, nodeId: nat)

  datatype PrevWorkPackageResults = PrevWorkPackageResults(
    nodeId: nat, numBytesPosted: U32, numBytesNotPosted: U32, fcDataPosted: U8, fcDataNotPosted: U8)

  const NO_RESULTS := PrevWorkPackageResults(NODE_ID_INVALID, 0, 0, 0, 0)

  /** Every request's gather list lies in the used part of the SGE array. */
  predicate Placed(wrs: seq<SendWr>, used: nat) {
    forall i :: 0 <= i < |wrs| ==> wrs[i].sgList + wrs[i].numSge <= used
  }

  function Written(wrs: seq<SendWr>, sges: seq<Sge>): seq<Request>
    requires Placed(wrs, |sges|)
  {
    seq(|wrs|, i requires 0 <= i < |wrs| =>
      Request(sges[wrs[i].sgList..wrs[i].sgList + wrs[i].numSge], wrs[i].fc))
  }

  function ContextOf(node: nat, r: Request): Context {
    Context(node, r.fc, Length(r))
  }

  function ContextsOf(node: nat, rs: seq<Request>): (xs: seq<Context>)
    ensures |xs| == |rs|
  {
    seq(|rs|, i requires 0 <= i < |rs| => ContextOf(node, rs[i]))
  }

  /** The books after posting several requests. */
  ghost predicate CanGive(l: Ledger, ids: seq<nat>, xs: seq<Context>) {
    && |ids| == |xs| && |l.pending| == |l.posted|
    && (forall i :: 0 <= i < |ids| ==> ids[i] < |l.contexts| && xs[i].target < |l.pending|)
  }

  ghost function GiveAll(l: Ledger, ids: seq<nat>, xs: seq<Context>): (after: Ledger)
    requires CanGive(l, ids, xs)
    ensures |after.contexts| == |l.contexts| && |after.pending| == |after.posted| == |l.pending|
  {
    if ids == [] then l
    else
      var n := |ids| - 1;
      Give(GiveAll(l, ids[..n], xs[..n]), ids[n], xs[n])
  }

  /** What several requests carry. */
  function TotalOf(rs: seq<Request>): Amount { Amount(TotalLength(rs), TotalUnits(rs)) }

  /** The books when only the counters and amounts of one node have moved. */
  ghost predicate MovedFor(l: Ledger, after: Ledger, node: nat, ids: seq<nat>, count: nat, amount: Amount) {
    && node < |l.pending| == |l.posted|
    && after.pending == l.pending[node := l.pending[node] + count]
    && after.total == l.total + count
    && after.posted == l.posted[node := l.posted[node].Plus(amount)]
    && after.completed == l.completed
    && after.flight == l.flight + Elements(ids)
  }

  lemma GiveMoves(l: Ledger, mid: Ledger, node: nat, ids: seq<nat>, count: nat, amount: Amount, c: nat, x: Context)
    requires MovedFor(l, mid, node, ids, count, amount) && x.target == node && c < |mid.contexts|
    ensures MovedFor(l, Give(mid, c, x), node, ids + [c], count + 1, amount.Plus(Carried(x)))
  {
    assert Elements(ids + [c]) == Elements(ids) + {c};
  }

  lemma MovedNothing(l: Ledger, node: nat)
    requires node < |l.pending| == |l.posted|
    ensures MovedFor(l, l, node, [], 0, NOTHING)
  {}

  /** Posting to one node only moves that node's counters and bytes. */
  lemma {:induction false} GiveAllToOne(l: Ledger, ids: seq<nat>, node: nat, rs: seq<Request>)
    requires CanGive(l, ids, ContextsOf(node, rs)) && node < |l.pending|
    ensures MovedFor(l, GiveAll(l, ids, ContextsOf(node, rs)), node, ids, |rs|, TotalOf(rs))
  {
    hide MovedFor, Give, SgeBytes;
    if rs != [] {
      var n := |rs| - 1;
      assert ContextsOf(node, rs)[..n] == ContextsOf(node, rs[..n]);
      GiveAllToOne(l, ids[..n], node, rs[..n]);
      TotalPush(rs[..n], rs[n]);
      assert rs == rs[..n] + [rs[n]];
      GiveMoves(l, GiveAll(l, ids[..n], ContextsOf(node, rs[..n])), node, ids[..n], n, TotalOf(rs[..n]),
        ids[n], ContextOf(node, rs[n]));
      assert ids == ids[..n] + [ids[n]];
    } else {
      MovedNothing(l, node);
    }
  }

  lemma {:induction false} TotalPush(rs: seq<Request>, r: Request)
    ensures TotalLength(rs + [r]) == TotalLength(rs) + Length(r)
    ensures TotalUnits(rs + [r]) == TotalUnits(rs) + r.fc
  {
    if rs != [] {
      TotalPush(rs[1..], r);
      assert (rs + [r])[1..] == rs[1..] + [r];
    } else {
      assert (rs + [r])[1..] == [];
    }
  }

  /** The SGE array with `more` stored from position `used` on. */
  ghost predicate Stored(before: seq<Sge>, after: seq<Sge>, used: nat, more: seq<Sge>) {
    && |after| == |before| && used + |more| <= |before|
    && (forall i :: 0 <= i < |before| ==> after[i] == if used <= i < used + |more| then more[i - used] else before[i])
  }

  /** One more request behind those written so far. */
  lemma WrittenPush(wrs: seq<SendWr>, sges: seq<Sge>, used: nat, w: SendWr, more: seq<Sge>, after: seq<Sge>)
    requires Placed(wrs, used) && Stored(sges, after, used, more)
    requires w.numSge == |more| && (|more| > 0 ==> w.sgList == used) && (more == [] ==> w.sgList == 0)
    ensures Placed(wrs + [w], used + |more|)
    ensures Written(wrs + [w], after) == Written(wrs, sges) + [Request(more, w.fc)]
  {
    assert after[w.sgList..w.sgList + w.numSge] == more;
    forall i | 0 <= i < |wrs|
      ensures Written(wrs + [w], after)[i] == Written(wrs, sges)[i]
    {
      var lo, hi := wrs[i].sgList, wrs[i].sgList + wrs[i].numSge;
      assert after[lo..hi] == sges[lo..hi];
    }
  }

  /** What the dispatcher reports about a package it cut into `rs`. */
  function ResultsOf(wp: NextWorkPackage, total: nat, rs: seq<Request>): PrevWorkPackageResults
    requires TotalLength(rs) <= total < WORD
  {
    PrevWorkPackageResults(wp.nodeId, TotalLength(rs), total - TotalLength(rs),
      if rs == [] then 0 else wp.flowControlData,
      if rs == [] then wp.flowControlData else 0)
  }

  /** The requests prepared so far: their place in the two arrays. */
  ghost predicate PlacedSoFar(wrs: seq<SendWr>, sges: seq<Sge>, ids: seq<nat>, source: nat, given: seq<Request>,
                              used: nat)
  {
    && |given| <= |wrs| && |given| <= |ids| && used <= |sges|
    && Placed(wrs[..|given|], used)
    && Written(wrs[..|given|], sges) == given
    && (forall i :: 0 <= i < |given| ==> wrs[i].ctx == ids[i] && wrs[i].source == source)
  }

  lemma PlacedStep(wrs: seq<SendWr>, sges: seq<Sge>, ids: seq<nat>, source: nat, given: seq<Request>, used: nat,
                   w: SendWr, more: seq<Sge>, wrs': seq<SendWr>, after: seq<Sge>)
    requires PlacedSoFar(wrs, sges, ids, source, given, used)
    requires |given| < |wrs| && |given| < |ids| && Stored(sges, after, used, more)
    requires w == SendWr(ids[|given|], if more == [] then 0 else used, |more|, source, w.fc, None, false)
    requires wrs' == wrs[|given| := w]
    ensures PlacedSoFar(wrs', after, ids, source, given + [Request(more, w.fc)], used + |more|)
  {
    UpdatePrefix(wrs, wrs', |given|, w);
    WrittenPush(wrs[..|given|], sges, used, w, more, after);
  }

  /** The work requests that are found from `i` by following the links, which lead forward. */
  ghost function Chain(wrs: seq<SendWr>, i: nat): seq<nat>
    decreases |wrs| - i
  {
    if i >= |wrs| then []
    else
      var next := wrs[i].next;
      [i] + if next.Some? && i < next.value then Chain(wrs, next.value) else []
  }

  lemma {:induction false} ChainIsPrefix(wrs: seq<SendWr>, n: nat, i: nat)
    requires i < n <= |wrs| && wrs[n - 1].next == None
    requires forall k :: 0 <= k < n - 1 ==> wrs[k].next == Some(k + 1)
    ensures Chain(wrs, i) == Indices(n)[i..]
    decreases n - i
  {
    if i < n - 1 {
      ChainIsPrefix(wrs, n, i + 1);
    }
    assert Indices(n)[i..] == [i] + Indices(n)[i + 1..];
  }

  /** Only links and flags differ. */
  ghost predicate Relinked(before: seq<SendWr>, after: seq<SendWr>) {
    && |before| == |after|
    && (forall i :: 0 <= i < |before| ==>
         after[i] == before[i].(next := after[i].next, signaled := after[i].signaled))
  }

  lemma RelinkedIsPlaced(before: seq<SendWr>, after: seq<SendWr>, sges: seq<Sge>, ids: seq<nat>, source: nat,
                         given: seq<Request>, used: nat)
    requires Relinked(before, after) && PlacedSoFar(before, sges, ids, source, given, used)
    ensures PlacedSoFar(after, sges, ids, source, given, used)
  {
    var old', new' := before[..|given|], after[..|given|];
    forall i | 0 <= i < |given|
      ensures new'[i].sgList == old'[i].sgList && new'[i].numSge == old'[i].numSge && new'[i].fc == old'[i].fc
    {
      assert new'[i] == after[i] && old'[i] == before[i];
    }
    assert Written(new', sges) == Written(old', sges);
  }

  /** The books as they will be once the requests prepared so far are posted. */
  ghost predicate Booked(l0: Ledger, free0: seq<nat>, node: nat, given: seq<Request>, l: Ledger,
                         connected: set<nat>, depth: nat)
  {
    && |given| <= |free0|
    && CanGive(l0, free0[..|given|], ContextsOf(node, given))
    && l == GiveAll(l0, free0[..|given|], ContextsOf(node, given))
    && Balanced(l, connected, depth)
  }

  /** The pool has a context left for the next request. */
  lemma BookRoom(l0: Ledger, free0: seq<nat>, node: nat, given: seq<Request>, l: Ledger,
                 connected: set<nat>, depth: nat)
    requires Booked(l0, free0, node, given, l, connected, depth)
    requires node in connected && node < |l0.pending| && l0.pending[node] + |given| < depth
    ensures |l.flight| < |connected| * depth
  {
    GiveAllToOne(l0, free0[..|given|], node, given);
    BalancedNotDry(l, connected, depth, node);
  }

  lemma GiveAllStep(l: Ledger, ids: seq<nat>, xs: seq<Context>, c: nat, x: Context)
    requires CanGive(l, ids, xs) && c < |l.contexts| && x.target < |l.pending|
    ensures CanGive(l, ids + [c], xs + [x])
    ensures GiveAll(l, ids + [c], xs + [x]) == Give(GiveAll(l, ids, xs), c, x)
  {
    assert (ids + [c])[..|ids|] == ids && (xs + [x])[..|xs|] == xs;
  }

  /** The books follow when the next request is given a context. */
  lemma BookStep(l0: Ledger, free0: seq<nat>, node: nat, given: seq<Request>, l: Ledger, r: Request,
                 connected: set<nat>, depth: nat)
    requires Booked(l0, free0, node, given, l, connected, depth)
    requires node in connected && node < |l0.pending| && l0.pending[node] + |given| < depth
    requires |given| < |free0| && free0[|given|] < |l.contexts| && free0[|given|] !in l.flight
    requires Carries(ContextOf(node, r))
    ensures Booked(l0, free0, node, given + [r], Give(l, free0[|given|], ContextOf(node, r)), connected, depth)
  {
    var ids, xs, c, x := free0[..|given|], ContextsOf(node, given), free0[|given|], ContextOf(node, r);
    GiveAllToOne(l0, ids, node, given);
    BalancedGive(l, connected, depth, c, x);
    GiveAllStep(l0, ids, xs, c, x);
    PrefixStep(free0, |given|);
    assert ContextsOf(node, given + [r]) == xs + [x];
  }

  /** What stays the same while one work package is prepared. */
  datatype Job = Job(size: U32, max: U32, depth: nat, source: nat, wp: NextWorkPackage,
                     l0: Ledger, free0: seq<nat>, connected: set<nat>)
  {
    ghost predicate Valid() {
      && Positions(size, max, wp.posBackRel, wp.posFrontRel) && size + max <= WORD
      && Balanced(l0, connected, depth) && wp.nodeId in connected && wp.nodeId < |l0.pending|
    }

    ghost function Slots(): nat
      requires Valid()
    {
      depth - l0.pending[wp.nodeId]
    }

    /** All the requests of the package. */
    ghost function All(): seq<Request>
      requires Valid()
    {
      Cut(size, max, Slots(), wp.posBackRel, wp.posFrontRel, wp.flowControlData)
    }
  }

  /** A package is cut until the queue is full or nothing of it is left. */
  lemma JobStops(j: Job, rs: seq<Request>, results: PrevWorkPackageResults)
    requires j.Valid() && rs == j.All()
    requires var total := BytesToProcess(j.size, j.wp.posBackRel, j.wp.posFrontRel);
             TotalLength(rs) <= total && results == ResultsOf(j.wp, total, rs)
    ensures var pending := j.l0.pending[j.wp.nodeId];
            && pending + |rs| <= j.depth
            && (pending + |rs| == j.depth || (results.numBytesNotPosted == 0 && results.fcDataNotPosted == 0))
    ensures results.nodeId == j.wp.nodeId
    ensures results.numBytesPosted + results.numBytesNotPosted
         == if j.wp.posBackRel > j.wp.posFrontRel then j.size - j.wp.posBackRel + j.wp.posFrontRel
            else j.wp.posFrontRel - j.wp.posBackRel
    ensures results.fcDataPosted + results.fcDataNotPosted == j.wp.flowControlData
  {
    CutStops(j.size, j.max, j.Slots(), j.wp.posBackRel, j.wp.posFrontRel, j.wp.flowControlData);
  }

  lemma JobUnits(j: Job, rs: seq<Request>)
    requires j.Valid() && rs == j.All()
    ensures TotalUnits(rs) == if rs == [] then 0 else j.wp.flowControlData
  {
    CutUnits(j.size, j.max, j.Slots(), j.wp.posBackRel, j.wp.posFrontRel, j.wp.flowControlData);
  }

  /** The prepare loop after `given`: what is left to cut, where the requests are, and the books. */
  ghost predicate Progress(j: Job, given: seq<Request>, posBack: U32, fc: U8, used: nat, l: Ledger,
                           wrs: seq<SendWr>, sges: seq<Sge>)
    requires j.Valid()
  {
    && |given| <= j.Slots() && used <= 2 * |given| && posBack < j.size
    && j.All() == given + Cut(j.size, j.max, j.Slots() - |given|, posBack, j.wp.posFrontRel, fc)
    && fc == (if given == [] then j.wp.flowControlData else 0)
    && PlacedSoFar(wrs, sges, j.free0, j.source, given, used)
    && (forall i :: 0 <= i < |given| ==> wrs[i].next == None)
    && Booked(j.l0, j.free0, j.wp.nodeId, given, l, j.connected, j.depth)
  }

  /** The next request of a package and the position behind it. */
  ghost predicate IsNext(size: U32, max: U32, back: U32, front: U32, fc: U8, r: Request, next: U32) {
    if back == front then r == Request([], fc) && next == back
    else
      var area := NextArea(size, max, back, front);
      r == Request(AreaSges(size, back, area), fc) && next == NextBack(size, area)
  }

  lemma NextOfCut(size: U32, max: U32, slots: nat, back: U32, front: U32, fc: U8, r: Request, next: U32)
    requires Positions(size, max, back, front) && size + max <= WORD
    requires slots > 0 && (back != front || fc > 0) && IsNext(size, max, back, front, fc, r, next)
    ensures Cut(size, max, slots, back, front, fc) == [r] + Cut(size, max, slots - 1, next, front, 0)
    ensures next < size && |r.sges| <= 2 && r.fc == fc && Length(r) < WORD && Length(r) + fc > 0
  {
    if back != front { AreaLength(size, max, back, front); }
  }

  /** One turn of the loop. */
  lemma ProgressStep(j: Job, given: seq<Request>, posBack: U32, fc: U8, used: nat, l: Ledger,
                     wrs: seq<SendWr>, sges: seq<Sge>, r: Request, next: U32, wrs': seq<SendWr>, after: seq<Sge>)
    requires j.Valid() && Progress(j, given, posBack, fc, used, l, wrs, sges)
    requires |given| < j.Slots() && (posBack != j.wp.posFrontRel || fc > 0)
    requires IsNext(j.size, j.max, posBack, j.wp.posFrontRel, fc, r, next)
    requires |given| < |wrs| && |given| < |j.free0| && Stored(sges, after, used, r.sges)
    requires j.free0[|given|] < |l.contexts| && j.free0[|given|] !in l.flight
    requires wrs' == wrs[|given| :=
               SendWr(j.free0[|given|], if r.sges == [] then 0 else used, |r.sges|, j.source, fc, None, false)]
    ensures Progress(j, given + [r], next, 0, used + |r.sges|,
              Give(l, j.free0[|given|], ContextOf(j.wp.nodeId, r)), wrs', after)
  {
    hide Balanced, PlacedSoFar, Booked, Cut, Stored, IsNext;
    NextOfCut(j.size, j.max, j.Slots() - |given|, posBack, j.wp.posFrontRel, fc, r, next);
    assert j.All() == given + [r] + Cut(j.size, j.max, j.Slots() - |given + [r]|, next, j.wp.posFrontRel, 0);
    BookStep(j.l0, j.free0, j.wp.nodeId, given, l, r, j.connected, j.depth);
    PlacedStep(wrs, sges, j.free0, j.source, given, used, wrs'[|given|], r.sges, wrs', after);
  }

  /** The next request has room in both arrays and finds a context in the pool. */
  lemma ProgressRoom(j: Job, given: seq<Request>, posBack: U32, fc: U8, used: nat, l: Ledger,
                     wrs: seq<SendWr>, sges: seq<Sge>)
    requires j.Valid() && Progress(j, given, posBack, fc, used, l, wrs, sges) && |given| < j.Slots()
    ensures |given| <= |j.free0| && |given| < j.depth && used + 2 <= 2 * j.depth && posBack < j.size
    ensures |l.flight| < |j.connected| * j.depth
    ensures j.wp.nodeId < |l.pending| == |l.posted|
  {
    BookRoom(j.l0, j.free0, j.wp.nodeId, given, l, j.connected, j.depth);
  }

  lemma ProgressStart(j: Job, wrs: seq<SendWr>, sges: seq<Sge>)
    requires j.Valid()
    ensures Progress(j, [], j.wp.posBackRel, j.wp.flowControlData, 0, j.l0, wrs, sges)
  {}

  /** When the loop stops, all requests are given. */
  lemma ProgressDone(j: Job, given: seq<Request>, posBack: U32, fc: U8, used: nat, l: Ledger,
                     wrs: seq<SendWr>, sges: seq<Sge>)
    requires j.Valid() && Progress(j, given, posBack, fc, used, l, wrs, sges)
    requires |given| == j.Slots() || (posBack == j.wp.posFrontRel && fc == 0)
    ensures given == j.All() && PlacedSoFar(wrs, sges, j.free0, j.source, given, |sges|)
    ensures forall i :: 0 <= i < |given| ==> wrs[i].next == None
    ensures Booked(j.l0, j.free0, j.wp.nodeId, given, l, j.connected, j.depth)
    ensures fc == (if given == [] then j.wp.flowControlData else 0)
    ensures TotalLength(given) <= BytesToProcess(j.size, j.wp.posBackRel, j.wp.posFrontRel)
  {
    CutStops(j.size, j.max, j.Slots(), j.wp.posBackRel, j.wp.posFrontRel, j.wp.flowControlData);
  }

  class SendDispatcher {
    const maxRecvBufferSize: U32
    const sqSize: nat
    const workRequestCtxPool: SendWorkRequestCtxPool
    const sgeLists: array<Sge>
    const sendWrs: array<SendWr>
    const completionList: CompletedWorkList
    /** The pooled context objects, by their index in the pool. */
    var contexts: seq<Context>
    /** Requests in flight per node id. */
    var sendQueuePending: seq<nat>
    var completionsPending: nat
    var prevWorkPackageResults: PrevWorkPackageResults

    /** Requests handed to the adapter that it has not completed. */
    ghost var inFlight: set<nat>
    /** Nodes with a connection. */
    ghost var connected: set<nat>
    /** What was reported posted and completed so far, per node. */
    ghost var postedSoFar: seq<Amount>
    ghost var completedSoFar: seq<Amount>
    /** What the completion lists that were handed to the send handler add up to, per node. */
    ghost var handedOver: seq<Amount>

    /** The context objects: those in the pool are named once. */
    ghost predicate PoolShape()
      reads this`contexts, workRequestCtxPool, workRequestCtxPool.queue
    {
      && workRequestCtxPool.Valid()
      && sendWrs as object != sgeLists && workRequestCtxPool.queue as object != sgeLists
      && |contexts| == workRequestCtxPool.poolSize
      && Distinct(workRequestCtxPool.free)
      && (forall i :: i in workRequestCtxPool.free ==> i < |contexts|)
    }

    ghost function OutOfPool(): set<nat>
      requires PoolShape()
      reads this`contexts, workRequestCtxPool, workRequestCtxPool.queue
    {
      Out(|contexts|, workRequestCtxPool.free)
    }

    ghost function Books(): Ledger
      reads this`contexts, this`sendQueuePending, this`completionsPending, this`inFlight, this`postedSoFar,
            this`completedSoFar
    {
      Ledger(inFlight, contexts, sendQueuePending, completionsPending, postedSoFar, completedSoFar)
    }

    /** Queues, contexts and books: the part that sending works on. */
    ghost predicate SendValid()
      reads this`contexts, this`sendQueuePending, this`completionsPending, this`inFlight, this`postedSoFar,
            this`completedSoFar, this`connected
      reads workRequestCtxPool, workRequestCtxPool.queue
    {
      && PoolShape()
      && sgeLists.Length == 2 * sqSize && sendWrs.Length == sqSize
      && |connected| * sqSize <= |contexts|
      && inFlight == OutOfPool()
      && Balanced(Books(), connected, sqSize)
    }

    ghost predicate Valid()
      reads this, workRequestCtxPool, workRequestCtxPool.queue, completionList
      reads completionList.numBytesWritten, completionList.fcDataWritten, completionList.nodeIds
    {
      && SendValid() && completionList.Valid()
      && workRequestCtxPool.queue as object != completionList.numBytesWritten
      && workRequestCtxPool.queue as object != completionList.fcDataWritten
      && workRequestCtxPool.queue as object != completionList.nodeIds
      && 0 < maxRecvBufferSize && |sendQueuePending| == NODE_ID_INVALID
      && |connected| <= completionList.nodeIds.Length
      && completionList.nodeIds.Length * sqSize <= workRequestCtxPool.poolSize
      && (forall i :: 0 <= i < |completionList.batch| ==> completionList.batch[i].node in connected)
      && Accounted(completedSoFar, handedOver, completionList.batch)
    }

    /** The dispatcher with its context pool, as large as the shared completion queue, and its completion list,
        with one entry per connection. */
    constructor (maxRecvBufferSize: U32, sqSize: nat, pool: SendWorkRequestCtxPool, list: CompletedWorkList)
      requires 0 < maxRecvBufferSize && list.nodeIds.Length * sqSize <= pool.poolSize
      requires pool.Valid() && pool.free == Indices(pool.poolSize) && list.Valid() && list.batch == []
      ensures Valid() && workRequestCtxPool == pool && completionList == list
      ensures fresh(sgeLists) && fresh(sendWrs)
      ensures this.sqSize == sqSize && this.maxRecvBufferSize == maxRecvBufferSize
      ensures inFlight == {} && connected == {} && prevWorkPackageResults == NO_RESULTS
      ensures postedSoFar == completedSoFar == handedOver == Repeat(NOTHING, NODE_ID_INVALID)
    {
      hide SendWorkRequestCtxPool.Valid, CompletedWorkList.Valid, Valid;
      this.maxRecvBufferSize := maxRecvBufferSize;
      this.sqSize := sqSize;
      workRequestCtxPool := pool;
      contexts := Repeat(Context(NODE_ID_INVALID, 0xFFFF, 0xFFFF_FFFF), pool.poolSize);
      sgeLists := new Sge[2 * sqSize];
      sendWrs := new SendWr[sqSize];
      sendQueuePending := Repeat(0, NODE_ID_INVALID);
      completionList := list;
      completionsPending := 0;
      prevWorkPackageResults := NO_RESULTS;
      inFlight := {};
      connected := {};
      postedSoFar := Repeat(NOTHING, NODE_ID_INVALID);
      completedSoFar := Repeat(NOTHING, NODE_ID_INVALID);
      handedOver := Repeat(NOTHING, NODE_ID_INVALID);
      new;
      NewIsValid();
    }

    lemma NewIsValid()
      requires workRequestCtxPool.Valid() && workRequestCtxPool.free == Indices(workRequestCtxPool.poolSize)
      requires completionList.Valid() && completionList.batch == []
      requires 0 < maxRecvBufferSize && completionList.nodeIds.Length * sqSize <= workRequestCtxPool.poolSize
      requires sgeLists.Length == 2 * sqSize && sendWrs.Length == sqSize && |contexts| == workRequestCtxPool.poolSize
      requires sendWrs as object != sgeLists && workRequestCtxPool.queue as object != sgeLists
      requires sendQueuePending == Repeat(0, NODE_ID_INVALID) && completionsPending == 0
      requires inFlight == {} && connected == {}
      requires postedSoFar == completedSoFar == handedOver == Repeat(NOTHING, NODE_ID_INVALID)
      ensures Valid()
    {
      hide Balanced, SendWorkRequestCtxPool.Valid, CompletedWorkList.Valid, Distinct, Accounted;
      NothingOut(workRequestCtxPool.poolSize);
      EmptyBooksBalance(Books(), sqSize);
      NoMultiple(|connected|, sqSize);
      NothingAccounted(NODE_ID_INVALID, handedOver, completionList.batch);
    }

    /** A context object for a request to `target`. The pool has one left whenever the books balance and the
        node's queue is not full. */
    method TakeContext(target: nat, fc: U8, sendSize: U32, ghost flight: set<nat>) returns (c: nat)
      requires PoolShape() && flight == OutOfPool() && |flight| < |contexts|
      modifies workRequestCtxPool`front, workRequestCtxPool`nonReturned, workRequestCtxPool`free,
               workRequestCtxPool.queue, this`contexts
      ensures PoolShape() && OutOfPool() == flight + {c}
      ensures old(workRequestCtxPool.free) != [] && c == old(workRequestCtxPool.free)[0]
      ensures workRequestCtxPool.free == old(workRequestCtxPool.free)[1..]
      ensures c < |contexts| && c !in flight
      ensures contexts == old(contexts)[c := Context(target, fc, sendSize)]
    {
      ghost var free := workRequestCtxPool.free;
      OutCount(|contexts|, free);
      assert free != [] && free[0] in free;
      OutPop(|contexts|, free);
      var r := workRequestCtxPool.Pop();
      assert r.Ok?;
      c := r.value;
      contexts := contexts[c := Context(target, fc, sendSize)];
    }

    /** The context of a completed request is handed out again, after all others. */
    method PutContextBack(c: nat)
      requires PoolShape() && c in OutOfPool()
      modifies workRequestCtxPool`back, workRequestCtxPool`nonReturned, workRequestCtxPool`free,
               workRequestCtxPool.queue
      ensures PoolShape() && OutOfPool() == old(OutOfPool()) - {c}
      ensures workRequestCtxPool.free == old(workRequestCtxPool.free) + [c]
    {
      OutPush(|contexts|, workRequestCtxPool.free, c);
      OutCount(|contexts|, workRequestCtxPool.free);
      var r := workRequestCtxPool.Push(c);
      assert r.Ok?;
    }

    /** Pops a context, places the gather list behind those in use, and fills in the next work request. */
    method AddRequest(chunksPos: nat, sgeListPos: nat, node: nat, source: nat, fc: U8, sges: seq<Sge>,
                      ghost flight: set<nat>)
      requires chunksPos < sendWrs.Length && sgeListPos + |sges| <= sgeLists.Length && |sges| <= 2
      requires SgeBytes(sges) < WORD
      requires PoolShape() && flight == OutOfPool() && |flight| < |contexts|
      modifies workRequestCtxPool`front, workRequestCtxPool`nonReturned, workRequestCtxPool`free,
               workRequestCtxPool.queue, this`contexts, sendWrs, sgeLists
      ensures PoolShape() && old(workRequestCtxPool.free) != []
      ensures var c := old(workRequestCtxPool.free)[0];
              && c < |contexts| == old(|contexts|) && c !in flight && OutOfPool() == flight + {c}
              && workRequestCtxPool.free == old(workRequestCtxPool.free)[1..]
              && contexts == old(contexts)[c := Context(node, fc, SgeBytes(sges))]
              && sendWrs[..] == old(sendWrs[..])[chunksPos :=
                   SendWr(c, if sges == [] then 0 else sgeListPos, |sges|, source, fc, None, false)]
      ensures Stored(old(sgeLists[..]), sgeLists[..], sgeListPos, sges)
    {
      var c := TakeContext(node, fc, SgeBytes(sges), flight);
      PlaceSges(sgeLists, sgeListPos, sges);
      sendWrs[chunksPos] := SendWr(c, if sges == [] then 0 else sgeListPos, |sges|, source, fc, None, false);
    }

    ghost function JobOf(size: U32, source: nat, wp: NextWorkPackage): Job
      reads this, workRequestCtxPool
    {
      Job(size, maxRecvBufferSize, sqSize, source, wp, Books(), workRequestCtxPool.free, connected)
    }

    /** One turn of the prepare loop: the next request's gather list and its context. */
    method PrepareNext(chunksPos: nat, sgeListPos: nat, size: U32, source: nat, node: nat, posBack: U32, posFront: U32,
                       fcData: U8, ghost j: Job, ghost given: seq<Request>, ghost l: Ledger)
      returns (next: U32, used: nat, length: nat, ghost given': seq<Request>, ghost l': Ledger)
      requires j.Valid() && j.size == size && j.max == maxRecvBufferSize && j.depth == sqSize && j.source == source
      requires j.wp.nodeId == node && j.wp.posFrontRel == posFront && j.connected == connected
      requires Progress(j, given, posBack, fcData, sgeListPos, l, sendWrs[..], sgeLists[..])
      requires chunksPos == |given| < j.Slots() && (posBack != posFront || fcData > 0)
      requires PoolShape() && l.contexts == contexts && l.flight == OutOfPool()
      requires workRequestCtxPool.free == j.free0[chunksPos..]
      requires |connected| * sqSize <= |contexts|
      requires sendWrs.Length == sqSize && sgeLists.Length == 2 * sqSize
      modifies this`contexts, workRequestCtxPool`front, workRequestCtxPool`nonReturned,
               workRequestCtxPool`free, workRequestCtxPool.queue, sendWrs, sgeLists
      ensures PoolShape() && l'.contexts == contexts && |contexts| == old(|contexts|) && l'.flight == OutOfPool()
      ensures chunksPos < |j.free0| && |given'| == chunksPos + 1 && TotalLength(given') == TotalLength(given) + length
      ensures workRequestCtxPool.free == j.free0[chunksPos + 1..]
      ensures Progress(j, given', next, 0, used, l', sendWrs[..], sgeLists[..])
    {
      hide Progress, Balanced, Distinct, Stored, IsNext, PoolShape, OutOfPool;
      ProgressRoom(j, given, posBack, fcData, sgeListPos, l, sendWrs[..], sgeLists[..]);
      var sges;
      sges, next := GatherNext(size, maxRecvBufferSize, posBack, posFront, fcData);
      ghost var r := Request(sges, fcData);
      given', used, length := given + [r], sgeListPos + |sges|, SgeBytes(sges);
      TotalPush(given, r);
      ghost var wrs, placed := sendWrs[..], sgeLists[..];
      AddRequest(chunksPos, sgeListPos, node, source, fcData, sges, l.flight);
      PrefixStep(j.free0, chunksPos);
      ProgressStep(j, given, posBack, fcData, sgeListPos, l, wrs, placed, r, next, sendWrs[..], sgeLists[..]);
      l' := Give(l, j.free0[chunksPos], ContextOf(node, r));
    }

    /** Cuts a work package into work requests and reports how much of it they carry. The check of the flow
        control balance cannot fail. */
    method PrepareWorkRequests(size: U32, source: nat, wp: NextWorkPackage)
      returns (chunks: nat, ghost given: seq<Request>, ghost l: Ledger)
      requires SendValid() && JobOf(size, source, wp).Valid()
      modifies this`contexts, this`prevWorkPackageResults, workRequestCtxPool`front, workRequestCtxPool`nonReturned,
               workRequestCtxPool`free, workRequestCtxPool.queue, sendWrs, sgeLists
      ensures given == old(JobOf(size, source, wp).All()) && chunks == |given|
      ensures PlacedSoFar(sendWrs[..], sgeLists[..], old(workRequestCtxPool.free), source, given, sgeLists.Length)
      ensures chunks <= sendWrs.Length && forall i :: 0 <= i < chunks ==> sendWrs[i].next == None
      ensures Booked(old(Books()), old(workRequestCtxPool.free), wp.nodeId, given, l, connected, sqSize)
      ensures workRequestCtxPool.free == old(workRequestCtxPool.free)[chunks..]
      ensures var total := BytesToProcess(size, wp.posBackRel, wp.posFrontRel);
              TotalLength(given) <= total && prevWorkPackageResults == ResultsOf(wp, total, given)
      ensures wp.nodeId < old(|sendQueuePending|) && old(sendQueuePending[wp.nodeId]) + |given| <= sqSize
      ensures old(sendQueuePending[wp.nodeId]) + |given| == sqSize
              || (prevWorkPackageResults.numBytesNotPosted == 0 && prevWorkPackageResults.fcDataNotPosted == 0)
      ensures prevWorkPackageResults.nodeId == wp.nodeId
      ensures prevWorkPackageResults.numBytesPosted + prevWorkPackageResults.numBytesNotPosted
           == if wp.posBackRel > wp.posFrontRel then size - wp.posBackRel + wp.posFrontRel
              else wp.posFrontRel - wp.posBackRel
      ensures prevWorkPackageResults.fcDataPosted + prevWorkPackageResults.fcDataNotPosted == wp.flowControlData
      ensures PoolShape() && l.contexts == contexts && |contexts| == old(|contexts|) && l.flight == OutOfPool()
    {
      hide Progress, Booked, Balanced, PlacedSoFar, Distinct, PoolShape, OutOfPool;
      ghost var j := JobOf(size, source, wp);
      given := [];
      var node, posFront, posBack := wp.nodeId, wp.posFrontRel, wp.posBackRel;
      var fcData: U8, totalFcDataProcessed: U8 := wp.flowControlData, 0;
      var sgeListPos: nat, totalBytesProcessed: nat := 0, 0;
      var totalBytesToProcess := BytesToProcess(size, posBack, posFront);
      chunks := 0;
      l := Books();
      ProgressStart(j, sendWrs[..], sgeLists[..]);
      while sendQueuePending[node] + chunks < sqSize && (posBack != posFront || fcData > 0)
        invariant chunks == |given| <= j.Slots() && chunks <= |j.free0|
        invariant fcData == (if chunks == 0 then wp.flowControlData else 0)
        invariant Progress(j, given, posBack, fcData, sgeListPos, l, sendWrs[..], sgeLists[..])
        invariant PoolShape() && l.contexts == contexts && |contexts| == |j.l0.contexts| && l.flight == OutOfPool()
        invariant workRequestCtxPool.free == j.free0[chunks..]
        invariant totalBytesProcessed == TotalLength(given)
        invariant totalFcDataProcessed == wp.flowControlData - fcData
        decreases sqSize - chunks
      {
        var length;
        posBack, sgeListPos, length, given, l :=
          PrepareNext(chunks, sgeListPos, size, source, node, posBack, posFront, fcData, j, given, l);
        totalBytesProcessed := totalBytesProcessed + length;
        chunks := chunks + 1;
        if fcData > 0 {
          totalFcDataProcessed, fcData := fcData, 0;
        }
      }
      ProgressDone(j, given, posBack, fcData, sgeListPos, l, sendWrs[..], sgeLists[..]);
      forall i | 0 <= i < chunks ensures sendWrs[i].next == None {
        assert sendWrs[..][i] == sendWrs[i];
      }
      prevWorkPackageResults := PrevWorkPackageResults(node, totalBytesProcessed,
        totalBytesToProcess - totalBytesProcessed, totalFcDataProcessed, fcData);
      JobStops(j, given, prevWorkPackageResults);
      if wp.flowControlData != prevWorkPackageResults.fcDataNotPosted + prevWorkPackageResults.fcDataPosted {
        assert false;
      }
    }

    /** Links the prepared requests, asks for a completion of each, hands the first one to the adapter and counts
        them: following the links, the adapter finds all the prepared requests, in order, and no other. */
    method PostWorkRequests(node: nat, chunks: nat)
      requires node < |sendQueuePending| && 0 < chunks <= sendWrs.Length && sendWrs[chunks - 1].next == None
      requires PoolShape()
      modifies this`sendQueuePending, this`completionsPending, sendWrs
      ensures PoolShape() && OutOfPool() == old(OutOfPool())
      ensures Chain(sendWrs[..], 0) == Indices(chunks) && Relinked(old(sendWrs[..]), sendWrs[..])
      ensures forall i :: 0 <= i < chunks ==> sendWrs[i].signaled
      ensures sendQueuePending == old(sendQueuePending)[node := old(sendQueuePending[node]) + chunks]
      ensures completionsPending == old(completionsPending) + chunks
    {
      for i := 0 to chunks - 1
        modifies sendWrs
        invariant forall k :: 0 <= k < sendWrs.Length ==>
                    sendWrs[k] == old(sendWrs[k]).(next := if k < i then Some(k + 1) else old(sendWrs[k]).next)
      {
        sendWrs[i] := sendWrs[i].(next := Some(i + 1));
      }
      ghost var linked := sendWrs[..];
      for i := 0 to chunks
        modifies sendWrs
        invariant forall k :: 0 <= k < sendWrs.Length ==>
                    sendWrs[k] == linked[k].(signaled := k < i || linked[k].signaled)
      {
        sendWrs[i] := sendWrs[i].(signaled := true);
      }
      ChainIsPrefix(sendWrs[..], chunks, 0);
      sendQueuePending := sendQueuePending[node := sendQueuePending[node] + chunks];
      completionsPending := completionsPending + chunks;
    }

    /** Sends as much of a work package as the queue has room for: sending stops only when the queue is full or nothing
        is left. The requests on the wire are exactly those of the cut, in order, and the books gain exactly them. */
    method SendData(size: U32, source: nat, wp: NextWorkPackage) returns (posted: bool, ghost rs: seq<Request>)
      requires SendValid() && JobOf(size, source, wp).Valid()
      modifies this`contexts, this`prevWorkPackageResults, this`sendQueuePending, this`completionsPending,
               this`inFlight, this`postedSoFar, workRequestCtxPool`front, workRequestCtxPool`nonReturned,
               workRequestCtxPool`free, workRequestCtxPool.queue, sendWrs, sgeLists
      ensures SendValid() && |sendQueuePending| == old(|sendQueuePending|)
      ensures rs == old(JobOf(size, source, wp).All()) && posted == (rs != [])
      ensures PlacedSoFar(sendWrs[..], sgeLists[..], old(workRequestCtxPool.free), source, rs, sgeLists.Length)
      ensures posted ==> Chain(sendWrs[..], 0) == Indices(|rs|)
      ensures PostedGrows(old(postedSoFar), postedSoFar, prevWorkPackageResults)
      ensures Booked(old(Books()), old(workRequestCtxPool.free), wp.nodeId, rs, Books(), connected, sqSize)
      ensures workRequestCtxPool.free == old(workRequestCtxPool.free)[|rs|..]
      ensures var total := BytesToProcess(size, wp.posBackRel, wp.posFrontRel);
              TotalLength(rs) <= total && prevWorkPackageResults == ResultsOf(wp, total, rs)
      ensures wp.nodeId < old(|sendQueuePending|) && old(sendQueuePending[wp.nodeId]) + |rs| <= sqSize
      ensures old(sendQueuePending[wp.nodeId]) + |rs| == sqSize
              || (prevWorkPackageResults.numBytesNotPosted == 0 && prevWorkPackageResults.fcDataNotPosted == 0)
      ensures prevWorkPackageResults.nodeId == wp.nodeId
      ensures prevWorkPackageResults.numBytesPosted + prevWorkPackageResults.numBytesNotPosted
           == if wp.posBackRel > wp.posFrontRel then size - wp.posBackRel + wp.posFrontRel
              else wp.posFrontRel - wp.posBackRel
      ensures prevWorkPackageResults.fcDataPosted + prevWorkPackageResults.fcDataNotPosted == wp.flowControlData
    {
      hide PlacedSoFar, Distinct, PoolShape, OutOfPool, Balanced, Booked, Cut, TotalLength, Chain, Relinked;
      assert wp.nodeId < |sendQueuePending|;
      hide MovedFor, Job.Valid, BytesToProcess, TotalUnits;
      ghost var l0, j := Books(), JobOf(size, source, wp);
      var chunks;
      ghost var l;
      chunks, rs, l := PrepareWorkRequests(size, source, wp);
      BookedMoves(l0, old(workRequestCtxPool.free), wp.nodeId, rs, l, connected, sqSize);
      JobUnits(j, rs);
      posted := chunks > 0;
      if posted {
        ghost var wrs := sendWrs[..];
        PostWorkRequests(wp.nodeId, chunks);
        RelinkedIsPlaced(wrs, sendWrs[..], sgeLists[..], old(workRequestCtxPool.free), source, rs, sgeLists.Length);
      }
      assert sendQueuePending == l.pending && completionsPending == l.total;
      EnterPosted(l);
    }

    /** The books show what was posted. */
    ghost method EnterPosted(l: Ledger)
      requires PoolShape() && sgeLists.Length == 2 * sqSize && sendWrs.Length == sqSize
      requires |connected| * sqSize <= |contexts| && l.flight == OutOfPool() && Balanced(l, connected, sqSize)
      requires l.contexts == contexts && l.pending == sendQueuePending && l.total == completionsPending
      requires l.completed == completedSoFar
      modifies this`inFlight, this`postedSoFar
      ensures SendValid() && Books() == l
    {
      hide PoolShape, OutOfPool, Balanced;
      inFlight := l.flight;
      postedSoFar := l.posted;
    }

    /** A connection to `node` is opened; the connection manager allows no more than the list has room for. */
    ghost method Connect(node: nat)
      requires Valid() && node < NODE_ID_INVALID && |connected + {node}| <= completionList.nodeIds.Length
      modifies this`connected
      ensures Valid() && connected == old(connected) + {node}
    {
      hide Distinct, Balanced, OutOfPool, CompletedWorkList.Valid, SendWorkRequestCtxPool.Valid;
      BalancedWiden(Books(), connected, connected + {node}, sqSize);
      MulMonotone(|connected + {node}|, completionList.nodeIds.Length, sqSize);
      connected := connected + {node};
    }

    /** The list of completions and the results of the previous package, both in the handler's hands, are
        cleared. */
    method ResetResults()
      requires Valid()
      modifies this`prevWorkPackageResults, this`handedOver, completionList, completionList.numBytesWritten,
               completionList.fcDataWritten, completionList.nodeIds
      ensures Valid() && completionList.batch == []
      ensures prevWorkPackageResults == NO_RESULTS == PrevWorkPackageResults(0xFFFF, 0, 0, 0, 0)
      ensures handedOver == Handed(old(handedOver), old(completionList.batch))
    {
      hide SendValid;
      prevWorkPackageResults := NO_RESULTS;
      handedOver := Handed(handedOver, completionList.batch);
      completionList.Reset();
      assert SendValid();
    }

    /** One completion: its node's entry, the counters, and the context goes back to the pool. Without room in the
        node list nothing is claimed beyond that. */
    method CompleteOne(c: nat) returns (fits: bool)
      requires Valid() && c in inFlight && c < |contexts|
      modifies this`sendQueuePending, this`completionsPending, this`inFlight, this`completedSoFar,
               workRequestCtxPool`back, workRequestCtxPool`nonReturned, workRequestCtxPool`free,
               workRequestCtxPool.queue, completionList, completionList.numBytesWritten,
               completionList.fcDataWritten, completionList.nodeIds
      ensures fits
         <==> |Index.Listed(old(completionList.batch) + [DoneOf(contexts[c])])| <= completionList.nodeIds.Length
      ensures fits ==>
                && Valid() && inFlight == old(inFlight) - {c}
                && completionList.batch == old(completionList.batch) + [DoneOf(contexts[c])]
                && workRequestCtxPool.free == old(workRequestCtxPool.free) + [c]
    {
      hide Index.EntryIsZero, Index.Listed, Distinct, SendValid, Accounted;
      InFlightFacts(c);
      ghost var done := DoneOf(contexts[c]);
      Append(completionList.batch, done);
      AccountedAdd(completedSoFar, handedOver, completionList.batch, done);
      fits := completionList.Add(DoneOf(contexts[c]));
      if fits {
        ReturnContext(c);
      }
    }

    lemma InFlightFacts(c: nat)
      requires SendValid() && c in inFlight && c < |contexts|
      ensures contexts[c].target in connected && Carries(contexts[c])
      ensures contexts[c].target < |sendQueuePending| == |completedSoFar|
    {
      BalancedTake(Books(), connected, sqSize, c);
    }

    /** The completed request leaves the books, and its context goes back to the pool. */
    method ReturnContext(c: nat)
      requires SendValid() && c in inFlight && c < |contexts|
      modifies this`sendQueuePending, this`completionsPending, this`inFlight, this`completedSoFar,
               workRequestCtxPool`back, workRequestCtxPool`nonReturned, workRequestCtxPool`free,
               workRequestCtxPool.queue
      ensures SendValid() && inFlight == old(inFlight) - {c} && |sendQueuePending| == old(|sendQueuePending|)
      ensures workRequestCtxPool.free == old(workRequestCtxPool.free) + [c]
      ensures contexts[c].target < |completedSoFar| == old(|completedSoFar|)
      ensures completedSoFar == CompletedWith(old(completedSoFar), DoneOf(contexts[c]))
    {
      hide PoolShape, OutOfPool, Balanced;
      ghost var l := Books();
      var x := contexts[c];
      BalancedTake(l, connected, sqSize, c);
      PutContextBack(c);
      sendQueuePending := sendQueuePending[x.target := sendQueuePending[x.target] - 1];
      completionsPending := completionsPending - 1;
      inFlight := inFlight - {c};
      completedSoFar := completedSoFar[x.target := completedSoFar[x.target].Plus(Carried(x))];
      assert Books() == Take(l, c);
    }

    lemma ValidAccounts()
      requires Valid()
      ensures Accounted(completedSoFar, handedOver, completionList.batch)
    {}

    lemma ListRoom()
      requires Valid()
      ensures |Index.Listed(completionList.batch)| <= completionList.nodeIds.Length
    {}

    /** Takes the polled requests off the books and reports them: what the books have as completed grows by
        exactly what the list gains. Without room for all their nodes in the list the code writes past its end,
        where the model stops. */
    method PollCompletions(polled: seq<nat>) returns (fits: bool, pending: bool)
      requires Valid() && Distinct(polled) && Elements(polled) <= inFlight
      requires forall i :: 0 <= i < |polled| ==> polled[i] < |contexts|
      modifies this`sendQueuePending, this`completionsPending, this`inFlight, this`completedSoFar,
               workRequestCtxPool`back, workRequestCtxPool`nonReturned, workRequestCtxPool`free,
               workRequestCtxPool.queue, completionList, completionList.numBytesWritten,
               completionList.fcDataWritten, completionList.nodeIds
      ensures fits
         <==> |Index.Listed(old(completionList.batch) + DonesOf(contexts, polled))| <= completionList.nodeIds.Length
      ensures fits ==>
                && Valid() && pending == (completionsPending > 0)
                && inFlight == old(inFlight) - Elements(polled)
                && completionList.batch == old(completionList.batch) + DonesOf(contexts, polled)
                && workRequestCtxPool.free == old(workRequestCtxPool.free) + polled
                && completedSoFar == Handed(old(completedSoFar), DonesOf(contexts, polled))
    {
      hide Distinct, Valid, Index.Listed, Accounted;
      ghost var before, dones := completionList.batch, DonesOf(contexts, polled);
      assert DonesOf(contexts, []) == [];
      assert polled[..|polled|] == polled;
      ValidAccounts();
      ListRoom();
      for i := 0 to |polled|
        invariant Valid() && inFlight == old(inFlight) - Elements(polled[..i])
        invariant completionList.batch == before + DonesOf(contexts, polled[..i])
        invariant |Index.Listed(before + DonesOf(contexts, polled[..i]))| <= completionList.nodeIds.Length
        invariant workRequestCtxPool.free == old(workRequestCtxPool.free) + polled[..i]
      {
        PrefixStep(polled, i);
        NotYetTaken(polled, i);
        DonesOfPrefix(contexts, polled, i);
        ListedGrows(before + DonesOf(contexts, polled[..i + 1]), before + dones);
        Associative(before, DonesOf(contexts, polled[..i]), [DoneOf(contexts[polled[i]])]);
        fits := CompleteOne(polled[i]);
        if !fits {
          pending := true;
          return;
        }
      }
      fits := true;
      ValidAccounts();
      AccountedGrows(old(completedSoFar), completedSoFar, handedOver, before, dones);
      pending := completionsPending > 0;
    }

    /** The report about the package: all of it is told apart into posted and not posted. */
    ghost predicate Reported(size: U32, wp: NextWorkPackage, connects: bool, rs: seq<Request>,
                             results: PrevWorkPackageResults)
    {
      if wp.nodeId == NODE_ID_INVALID || !connects then results == NO_RESULTS
      else
        var total := BytesToProcess(size, wp.posBackRel, wp.posFrontRel);
        TotalLength(rs) <= total && results == ResultsOf(wp, total, rs)
    }

    /** What is reported posted enters the sum of its node. */
    ghost predicate PostedGrows(before: seq<Amount>, after: seq<Amount>, results: PrevWorkPackageResults) {
      after == if results.nodeId >= |before| then before
               else var sum := before[results.nodeId];
                 before[results.nodeId := Amount(sum.bytes + results.numBytesPosted, sum.units + results.fcDataPosted)]
    }

    /** The books after the next package is posted, if there is one and its connection can be had. */
    ghost predicate Posts(size: U32, source: nat, wp: NextWorkPackage, connects: bool, rs: seq<Request>, l: Ledger)
      reads this, workRequestCtxPool
    {
      if wp.nodeId == NODE_ID_INVALID || !connects then rs == [] && l == Books()
      else
        && JobOf(size, source, wp).Valid() && rs == JobOf(size, source, wp).All()
        && Booked(Books(), workRequestCtxPool.free, wp.nodeId, rs, l, connected, sqSize)
    }

    lemma NothingPosted()
      requires Valid()
      ensures SendValid() && PostedGrows(postedSoFar, postedSoFar, NO_RESULTS)
    {}

    /** Sends the package, if there is one and its connection can be had. */
    method SendNext(size: U32, source: nat, wp: NextWorkPackage, connects: bool)
      returns (sent: bool, ghost rs: seq<Request>, ghost l: Ledger)
      requires Valid() && prevWorkPackageResults == NO_RESULTS
      requires wp.nodeId != NODE_ID_INVALID && connects ==> JobOf(size, source, wp).Valid()
      modifies this`contexts, this`prevWorkPackageResults, this`sendQueuePending, this`completionsPending,
               this`inFlight, this`postedSoFar, workRequestCtxPool`front, workRequestCtxPool`nonReturned,
               workRequestCtxPool`free, workRequestCtxPool.queue, sendWrs, sgeLists
      ensures Valid() && l == Books() && old(Posts(size, source, wp, connects, rs, l)) && sent == (rs != [])
      ensures workRequestCtxPool.free == old(workRequestCtxPool.free)[|rs|..]
      ensures Reported(size, wp, connects, rs, prevWorkPackageResults)
      ensures PostedGrows(old(postedSoFar), postedSoFar, prevWorkPackageResults)
      ensures sent ==>
                && Chain(sendWrs[..], 0) == Indices(|rs|)
                && PlacedSoFar(sendWrs[..], sgeLists[..], old(workRequestCtxPool.free), source, rs, sgeLists.Length)
      ensures wp.nodeId != 0xFFFF && connects ==>
                && wp.nodeId < old(|sendQueuePending|) && old(sendQueuePending[wp.nodeId]) + |rs| <= sqSize
                && (old(sendQueuePending[wp.nodeId]) + |rs| == sqSize
                    || (prevWorkPackageResults.numBytesNotPosted == 0 && prevWorkPackageResults.fcDataNotPosted == 0))
                && prevWorkPackageResults.nodeId == wp.nodeId
                && prevWorkPackageResults.numBytesPosted + prevWorkPackageResults.numBytesNotPosted
                   == (if wp.posBackRel > wp.posFrontRel then size - wp.posBackRel + wp.posFrontRel
                       else wp.posFrontRel - wp.posBackRel)
                && prevWorkPackageResults.fcDataPosted + prevWorkPackageResults.fcDataNotPosted == wp.flowControlData
      ensures wp.nodeId == 0xFFFF || !connects ==>
                rs == [] && prevWorkPackageResults == PrevWorkPackageResults(0xFFFF, 0, 0, 0, 0)
    {
      hide SendValid, CompletedWorkList.Valid, Accounted, Booked, PlacedSoFar, Chain, ResultsOf, TotalLength;
      hide Job.Valid, BytesToProcess, PostedGrows;
      sent, rs := false, [];
      NothingPosted();
      if wp.nodeId != NODE_ID_INVALID && connects {
        sent, rs := SendData(size, source, wp);
      }
      l := Books();
    }

    /** One turn, once the handler has taken the results and the completion list and has answered with `wp`: clear
        both, send the package, and poll. `connects` tells whether the connection can be had in time, and
        `polled` is what the adapter completes, for whose nodes the list may or may not have room. */
    method Dispatch(size: U32, source: nat, wp: NextWorkPackage, connects: bool, polled: seq<nat>)
      returns (fits: bool, active: bool, ghost rs: seq<Request>, ghost l: Ledger)
      requires Valid()
      requires wp.nodeId != NODE_ID_INVALID && connects ==> JobOf(size, source, wp).Valid()
      requires forall rs, l :: Posts(size, source, wp, connects, rs, l) ==> Pollable(l, polled)
      modifies this`contexts, this`prevWorkPackageResults, this`sendQueuePending, this`completionsPending,
               this`inFlight, this`postedSoFar, this`completedSoFar, this`handedOver,
               workRequestCtxPool`front, workRequestCtxPool`back, workRequestCtxPool`nonReturned,
               workRequestCtxPool`free, workRequestCtxPool.queue, sendWrs, sgeLists,
               completionList, completionList.numBytesWritten, completionList.fcDataWritten, completionList.nodeIds
      ensures old(Posts(size, source, wp, connects, rs, l))
      ensures handedOver == Handed(old(handedOver), old(completionList.batch))
      ensures postedSoFar == l.posted && contexts == l.contexts
      ensures forall i :: 0 <= i < |polled| ==> polled[i] < |contexts|
      ensures fits <==> |Index.Listed(DonesOf(contexts, polled))| <= completionList.nodeIds.Length
      ensures fits ==>
                && Valid() && active == (rs != [] || completionsPending > 0)
                && completionList.batch == DonesOf(contexts, polled) && inFlight == l.flight - Elements(polled)
                && workRequestCtxPool.free == old(workRequestCtxPool.free)[|rs|..] + polled
      ensures Reported(size, wp, connects, rs, prevWorkPackageResults)
      ensures PostedGrows(old(postedSoFar), postedSoFar, prevWorkPackageResults)
      ensures rs != [] ==>
                && Chain(sendWrs[..], 0) == Indices(|rs|)
                && PlacedSoFar(sendWrs[..], sgeLists[..], old(workRequestCtxPool.free), source, rs, sgeLists.Length)
      ensures wp.nodeId != 0xFFFF && connects ==>
                && wp.nodeId < old(|sendQueuePending|) && old(sendQueuePending[wp.nodeId]) + |rs| <= sqSize
                && (old(sendQueuePending[wp.nodeId]) + |rs| == sqSize
                    || (prevWorkPackageResults.numBytesNotPosted == 0 && prevWorkPackageResults.fcDataNotPosted == 0))
                && prevWorkPackageResults.nodeId == wp.nodeId
                && prevWorkPackageResults.numBytesPosted + prevWorkPackageResults.numBytesNotPosted
                   == (if wp.posBackRel > wp.posFrontRel then size - wp.posBackRel + wp.posFrontRel
                       else wp.posFrontRel - wp.posBackRel)
                && prevWorkPackageResults.fcDataPosted + prevWorkPackageResults.fcDataNotPosted == wp.flowControlData
      ensures wp.nodeId == 0xFFFF || !connects ==>
                rs == [] && prevWorkPackageResults == PrevWorkPackageResults(0xFFFF, 0, 0, 0, 0)
    {
      hide SendValid, CompletedWorkList.Valid, Accounted, Booked, PlacedSoFar, Chain, ResultsOf, TotalLength;
      hide Job.Valid, BytesToProcess, Reported, PostedGrows, Index.Listed, Distinct;
      ResetResults();
      var sent;
      sent, rs, l := SendNext(size, source, wp, connects);
      assert old(Posts(size, source, wp, connects, rs, l));
      assert [] + DonesOf(contexts, polled) == DonesOf(contexts, polled);
      fits, active := PollCompletions(polled);
      active := active || sent;
    }

    /** What the dispatcher has reported, for bytes and for flow control units: what was posted is what the completion
        lists handed over held, what the present list holds and what is in flight. The entries of the list hold 32 and
        8 bits of it. */
    lemma ReportsAddUp(v: nat)
      requires Valid() && v < NODE_ID_INVALID
      ensures v < |postedSoFar| == |handedOver| == completionList.numBytesWritten.Length
      ensures v < completionList.fcDataWritten.Length
      ensures var under := Underway(inFlight, contexts, v);
              && postedSoFar[v].bytes == handedOver[v].bytes + Index.BytesOf(completionList.batch, v) + under.bytes
              && postedSoFar[v].units == handedOver[v].units + Index.FcOf(completionList.batch, v) + under.units
      ensures inFlight == {} ==>
                && postedSoFar[v].bytes == handedOver[v].bytes + Index.BytesOf(completionList.batch, v)
                && postedSoFar[v].units == handedOver[v].units + Index.FcOf(completionList.batch, v)
      ensures completionList.numBytesWritten[v] == Index.BytesOf(completionList.batch, v) % WORD
      ensures completionList.fcDataWritten[v] == Index.FcOf(completionList.batch, v) % Index.BYTE
    {
      assert completionList.numBytesWritten[..][v] == completionList.numBytesWritten[v];
      assert completionList.fcDataWritten[..][v] == completionList.fcDataWritten[v];
      if inFlight == {} { NothingInFlight(contexts, |contexts|, v); }
    }
  }

  /** The polled requests are different ones in flight. */
  ghost predicate Pollable(l: Ledger, polled: seq<nat>) {
    && Distinct(polled) && Elements(polled) <= l.flight
    && (forall i :: 0 <= i < |polled| ==> polled[i] < |l.contexts|)
  }

  /** What a list of completions holds for a node. */
  ghost function Listing(batch: seq<Index.Done>, v: nat): Amount {
    Amount(Index.BytesOf(batch, v), Index.FcOf(batch, v))
  }

  /** What the books have as completed is what was handed over and what the list holds. */
  ghost predicate Accounted(completed: seq<Amount>, handed: seq<Amount>, batch: seq<Index.Done>) {
    && |completed| == |handed|
    && (forall v :: 0 <= v < |handed| ==> completed[v] == handed[v].Plus(Listing(batch, v)))
  }

  /** The sums per node once a list is added. */
  ghost function Handed(sums: seq<Amount>, batch: seq<Index.Done>): (after: seq<Amount>)
    ensures |after| == |sums|
    ensures forall v :: 0 <= v < |sums| ==>
              && after[v].bytes == sums[v].bytes + Index.BytesOf(batch, v)
              && after[v].units == sums[v].units + Index.FcOf(batch, v)
  {
    seq(|sums|, v requires 0 <= v < |sums| => sums[v].Plus(Listing(batch, v)))
  }

  ghost function CompletedWith(completed: seq<Amount>, done: Index.Done): seq<Amount>
    requires done.node < |completed|
  {
    completed[done.node := completed[done.node].Plus(Amount(done.bytes, done.fc))]
  }

  lemma NothingAccounted(n: nat, sums: seq<Amount>, batch: seq<Index.Done>)
    requires sums == Repeat(NOTHING, n) && batch == []
    ensures Accounted(sums, sums, batch)
  {
    hide Index.BytesOf, Index.FcOf, Repeat, Listing;
    forall v | 0 <= v < n ensures sums[v] == sums[v].Plus(Listing(batch, v)) {
      NothingListed(batch, v);
      PlusNothing(sums[v]);
    }
  }

  lemma NothingListed(batch: seq<Index.Done>, v: nat)
    requires batch == []
    ensures Listing(batch, v) == NOTHING
  {}

  lemma AccountedAdd(completed: seq<Amount>, handed: seq<Amount>, batch: seq<Index.Done>, done: Index.Done)
    requires Accounted(completed, handed, batch) && done.node < |completed|
    ensures Accounted(CompletedWith(completed, done), handed, batch + [done])
  {
    Append(batch, done);
  }

  lemma AccountedGrows(before: seq<Amount>, after: seq<Amount>, handed: seq<Amount>, batch: seq<Index.Done>,
                       more: seq<Index.Done>)
    requires Accounted(before, handed, batch) && Accounted(after, handed, batch + more)
    ensures after == Handed(before, more)
  {
    forall v | 0 <= v < |handed| ensures after[v] == before[v].Plus(Listing(more, v)) {
      Index.SumsConcat(batch, more, v);
    }
  }

  /** Without vanishing entries no node is listed twice, so one entry per connection is room enough. */
  lemma IndexRoom(batch: seq<Index.Done>, connected: set<nat>)
    requires Index.NeverVanishes(batch)
    requires forall i :: 0 <= i < |batch| ==> batch[i].node in connected
    ensures |Index.Listed(batch)| <= |connected|
  {
    Index.VanishFreeIsExact(batch);
    forall v | v in Index.Listed(batch) ensures v in connected {
      Index.ListedIsOccurring(batch, v);
    }
    DistinctCount(Index.Listed(batch));
    SubsetCount(Elements(Index.Listed(batch)), connected);
  }

  lemma {:induction false} ListedGrows(a: seq<Index.Done>, b: seq<Index.Done>)
    requires a <= b
    ensures |Index.Listed(a)| <= |Index.Listed(b)|
  {
    if a != b {
      ListedGrows(a, b[..|b| - 1]);
    }
  }

  function DoneOf(x: Context): Index.Done {
    Index.Done(x.target, x.sendSize, x.fc)
  }

  function DonesOf(contexts: seq<Context>, ids: seq<nat>): (dones: seq<Index.Done>)
    requires forall i :: 0 <= i < |ids| ==> ids[i] < |contexts|
    ensures |dones| == |ids|
  {
    seq(|ids|, i requires 0 <= i < |ids| => DoneOf(contexts[ids[i]]))
  }

  lemma DonesOfPrefix(contexts: seq<Context>, ids: seq<nat>, i: nat)
    requires i < |ids| && forall j :: 0 <= j < |ids| ==> ids[j] < |contexts|
    ensures DonesOf(contexts, ids[..i + 1]) == DonesOf(contexts, ids[..i]) + [DoneOf(contexts[ids[i]])]
    ensures DonesOf(contexts, ids[..i + 1]) <= DonesOf(contexts, ids)
  {}

  lemma NotYetTaken(ids: seq<nat>, i: nat)
    requires Distinct(ids) && i < |ids|
    ensures ids[i] !in Elements(ids[..i]) && Elements(ids[..i + 1]) == Elements(ids[..i]) + {ids[i]}
  {
    PrefixStep(ids, i);
  }

  lemma MovedCounters(l: Ledger, after: Ledger, node: nat, ids: seq<nat>, count: nat, amount: Amount)
    requires MovedFor(l, after, node, ids, count, amount)
    ensures node < |l.pending| && after.total == l.total + count && after.completed == l.completed
    ensures after.pending == if count == 0 then l.pending else l.pending[node := l.pending[node] + count]
    ensures node < |l.posted| && after.posted == l.posted[node := l.posted[node].Plus(amount)]
  {}

  /** The counters and amounts of the books once a package is posted. */
  lemma BookedMoves(l0: Ledger, free0: seq<nat>, node: nat, given: seq<Request>, l: Ledger,
                    connected: set<nat>, depth: nat)
    requires Booked(l0, free0, node, given, l, connected, depth) && node < |l0.pending|
    ensures |given| <= |free0| && Balanced(l, connected, depth)
    ensures MovedFor(l0, l, node, free0[..|given|], |given|, TotalOf(given))
    ensures l.pending == (if given == [] then l0.pending else l0.pending[node := l0.pending[node] + |given|])
    ensures l.total == l0.total + |given| && l.completed == l0.completed
    ensures node < |l0.posted| && l.posted == l0.posted[node := l0.posted[node].Plus(TotalOf(given))]
  {
    hide MovedFor, Balanced, GiveAll, CanGive, ContextsOf, TotalOf;
    GiveAllToOne(l0, free0[..|given|], node, given);
    MovedCounters(l0, l, node, free0[..|given|], |given|, TotalOf(given));
  }

  /** The gather list of the next request and the position behind it. The check for a too long request
      cannot fail. */
  method GatherNext(size: U32, max: U32, posBack: U32, posFront: U32, fc: U8) returns (sges: seq<Sge>, next: U32)
    requires Positions(size, max, posBack, posFront) && size + max <= WORD
    requires posBack != posFront || fc > 0
    ensures IsNext(size, max, posBack, posFront, fc, Request(sges, fc), next)
    ensures |sges| <= 2 && SgeBytes(sges) < WORD && SgeBytes(sges) + fc > 0
  {
    if posBack == posFront {
      return [], posBack;
    }
    var area := NextArea(size, max, posBack, posFront);
    sges, next := AreaSges(size, posBack, area), NextBack(size, area);
    AreaLength(size, max, posBack, posFront);
    if SgeBytes(sges) > max {
      assert false;
    }
  }

  /** One or two gather elements, written behind those in use. */
  method PlaceSges(sgeLists: array<Sge>, sgeListPos: nat, sges: seq<Sge>)
    requires sgeListPos + |sges| <= sgeLists.Length && |sges| <= 2
    modifies sgeLists
    ensures Stored(old(sgeLists[..]), sgeLists[..], sgeListPos, sges)
  {
    if |sges| >= 1 {
      sgeLists[sgeListPos] := sges[0];
    }
    if |sges| == 2 {
      sgeLists[sgeListPos + 1] := sges[1];
    }
  }

  lemma {:induction false} NothingInFlight(contexts: seq<Context>, n: nat, v: nat)
    requires n <= |contexts|
    ensures UnderwayBelow(n, {}, contexts, v) == NOTHING
  {
    if n > 0 { NothingInFlight(contexts, n - 1, v); }
  }

  lemma NoneForNode(contexts: seq<Context>, v: nat)
    ensures ForNode({}, contexts, v) == {}
  {}

  lemma EmptyBooksBalance(l: Ledger, depth: nat)
    requires l.flight == {} && l.total == 0 && |l.pending| == |l.posted| == |l.completed|
    requires forall v :: 0 <= v < |l.pending| ==> l.pending[v] == 0 && l.posted[v] == l.completed[v] == NOTHING
    ensures Balanced(l, {}, depth)
  {
    hide UnderwayBelow, ForNode, Amount.Plus;
    forall v | 0 <= v < |l.pending|
      ensures l.posted[v] == l.completed[v].Plus(Underway(l.flight, l.contexts, v))
      ensures |ForNode(l.flight, l.contexts, v)| == 0
    {
      NothingInFlight(l.contexts, |l.contexts|, v);
      PlusNothing(l.completed[v]);
      NoneForNode(l.contexts, v);
    }
  }
}
