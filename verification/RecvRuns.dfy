/** The receive side as one state machine: the adapter fills posted work requests in order, the dispatcher polls,
    refills, processes and hands over entries, and the handler returns buffers whenever it likes. */
module RecvRuns {
  import opened Arithmetic
  import opened Finite
  import opened Streams
  import opened RecvBuffers

  /** Bytes of a buffer, buffers of a work request, work requests of the shared receive queue, buffers of the pool. */
  datatype Setup = Setup(size: nat, maxSges: nat, queueSize: nat, count: nat)
  {
    predicate Valid() { size > 0 && maxSges > 0 && queueSize > 0 }

    function RingSize(): nat { queueSize * maxSges }
  }

  /** The step of the dispatch loop that is next. */
  datatype Phase = Polling | Refilling | Processing | Delivering

  datatype State = State(
    region: seq<Byte>,
    pool: seq<nat>,
    posted: seq<seq<nat>>,
    cq: seq<Work>,
    work: seq<Work>,
    irb: seq<Entry>,
    held: seq<Entry>,
    seen: seq<seq<Item>>,
    arrived: seq<Message>,
    delivered: seq<Item>,
    pending: int,
    freeRequests: int,
    phase: Phase)

  /** `Arrive` and `Return` are moves of the adapter and of the handler and happen at any time. */
  datatype Event =
    | Arrive(message: Message, place: nat)
    | Return(index: nat)
    | Poll(count: nat)
    | Refill(got: nat)
    | Process
    | EndProcess
    | Deliver(processed: nat)

  function WorkBuffers(ws: seq<Work>): seq<nat> {
    if ws == [] then [] else ws[0].buffers + WorkBuffers(ws[1..])
  }

  function AllEntries(ws: seq<Work>, size: nat): seq<Entry> {
    if ws == [] then [] else Entries(ws[0], size) + AllEntries(ws[1..], size)
  }

  function AllUnused(ws: seq<Work>, size: nat): seq<nat> {
    if ws == [] then [] else Unused(ws[0], size) + AllUnused(ws[1..], size)
  }

  /** The first `count` groups of `n` buffers. */
  function Groups(buffers: seq<nat>, n: nat, count: nat): (groups: seq<seq<nat>>)
    requires count * n <= |buffers|
    ensures |groups| == count && forall g :: g in groups ==> |g| == n
  {
    if count == 0 then []
    else
      Distribute(count - 1, n);
      var done := (count - 1) * n;
      Groups(buffers, n, count - 1) + [buffers[done..done + n]]
  }

  lemma NoGroups(buffers: seq<nat>, n: nat)
    ensures Groups(buffers, n, 0) == [] && 0 * n == 0
  {}

  lemma GroupsPush(buffers: seq<nat>, n: nat, count: nat)
    requires count * n + n <= |buffers|
    ensures (count + 1) * n == count * n + n
    ensures Groups(buffers, n, count + 1) == Groups(buffers, n, count) + [buffers[count * n..count * n + n]]
  {
    Distribute(count, n);
  }

  /** How many work requests a refill can build: as many as there are whole groups of buffers and free places. */
  function Requests(got: nat, maxSges: nat, toQueue: nat): (count: nat)
    requires maxSges > 0
    ensures count * maxSges <= got && count <= toQueue
    ensures count < toQueue ==> got < (count + 1) * maxSges
  {
    var whole := got / maxSges;
    WholeGroups(got, maxSges);
    if whole <= toQueue then whole else (MulMonotone(toQueue, whole, maxSges); toQueue)
  }

  /** What the pool may give a refill: what it asks for, or all there is, or all but one. */
  ghost predicate Refilled(c: Setup, pool: seq<nat>, pending: int, got: nat) {
    if pending < c.queueSize
    then var count := (c.queueSize - pending) * c.maxSges;
      got <= |pool| && (got == Min(count, |pool|) || (pool != [] && got == Min(count, |pool| - 1)))
    else got == 0
  }

  function RefillCount(c: Setup, pending: int, got: nat): (count: nat)
    requires c.Valid()
    ensures count * c.maxSges <= got
  {
    if pending < c.queueSize then Requests(got, c.maxSges, c.queueSize - pending) else 0
  }

  /** The pool after `got` buffers were taken and those behind the first `used` came back. */
  function AfterRefill(pool: seq<nat>, got: nat, used: nat): seq<nat>
    requires used <= got <= |pool|
  {
    pool[got..] + pool[used..got]
  }

  /** The pool after a refill, and the work requests it posts. */
  ghost function RefillPool(c: Setup, pool: seq<nat>, pending: int, got: nat): seq<nat>
    requires c.Valid() && Refilled(c, pool, pending, got)
  {
    AfterRefill(pool, got, RefillCount(c, pending, got) * c.maxSges)
  }

  ghost function RefillPosted(c: Setup, pool: seq<nat>, pending: int, got: nat): (posted: seq<seq<nat>>)
    requires c.Valid() && Refilled(c, pool, pending, got)
    ensures |posted| == RefillCount(c, pending, got)
  {
    Groups(pool, c.maxSges, RefillCount(c, pending, got))
  }

  /** How many completions a poll asks for: as many as the queue has and the ring has room for, if each fills
      `maxSges` entries of it. */
  function PollLimit(free: nat, maxSges: nat, queueSize: nat): (limit: nat)
    requires maxSges > 0
    ensures limit <= queueSize && limit * maxSges <= free
    ensures limit == queueSize || free < (limit + 1) * maxSges
  {
    WholeGroups(free, maxSges);
    if free / maxSges > queueSize then MulMonotone(queueSize, free / maxSges, maxSges); queueSize
    else free / maxSges
  }

  function MessageWork(buffers: seq<nat>, m: Message): Work {
    Work(buffers, m.source, m.fc, |m.payload|)
  }

  /** The data of an arriving message goes to any posted work request, and completions come in any order. */
  ghost predicate Enabled(c: Setup, s: State, e: Event)
    requires c.Valid()
  {
    match e
    case Arrive(m, i) =>
      i < |s.posted| && AllInRegion(s.region, s.posted[i], c.size)
      && |m.payload| <= c.maxSges * c.size && (m.payload != [] || m.fc > 0)
    case Return(i) => i < |s.held|
    case Poll(k) =>
      s.phase == Polling && |s.irb| <= c.RingSize() && k <= |s.cq|
      && k <= PollLimit(c.RingSize() - |s.irb|, c.maxSges, c.queueSize)
    case Refill(got) =>
      s.phase == Refilling && Refilled(c, s.pool, s.pending, got)
    case Process => s.phase == Processing && s.work != []
    case EndProcess => s.phase == Processing && s.work == []
    case Deliver(p) => s.phase == Delivering && p <= |s.irb| && AllReadable(s.region, s.irb, c.size)
  }

  ghost function Apply(c: Setup, s: State, e: Event): State
    requires c.Valid() && Enabled(c, s, e)
  {
    match e
    case Arrive(m, i) =>
      s.(region := Scatter(s.region, s.posted[i], c.size, m.payload),
         posted := Without(s.posted, i),
         cq := s.cq + [MessageWork(s.posted[i], m)],
         arrived := s.arrived + [m])
    case Return(i) =>
      s.(pool := s.pool + EntryBuffers([s.held[i]]),
         held := s.held[..i] + s.held[i + 1..],
         seen := if i < |s.seen| then s.seen[..i] + s.seen[i + 1..] else s.seen)
    case Poll(k) =>
      s.(cq := s.cq[k..], work := s.cq[..k], pending := s.pending - k, phase := Refilling)
    case Refill(got) =>
      var count := RefillCount(c, s.pending, got);
      s.(pool := RefillPool(c, s.pool, s.pending, got),
         posted := s.posted + RefillPosted(c, s.pool, s.pending, got),
         pending := s.pending + count,
         freeRequests := s.freeRequests - count,
         phase := Processing)
    case Process =>
      s.(pool := s.pool + Unused(s.work[0], c.size),
         irb := s.irb + Entries(s.work[0], c.size),
         work := s.work[1..],
         freeRequests := s.freeRequests + 1)
    case EndProcess => s.(phase := Delivering)
    case Deliver(p) =>
      s.(irb := s.irb[p..],
         held := s.held + s.irb[..p],
         seen := s.seen + EachItems(s.region, s.irb[..p], c.size),
         delivered := s.delivered + Items(s.region, s.irb[..p], c.size),
         phase := Polling)
  }

  function EachItems(region: seq<Byte>, es: seq<Entry>, size: nat): (each: seq<seq<Item>>)
    requires AllReadable(region, es, size)
    ensures |each| == |es| && forall i :: 0 <= i < |es| ==> each[i] == EntryItems(region, es[i], size)
  {
    seq(|es|, i requires 0 <= i < |es| => EntryItems(region, es[i], size))
  }

  /** In how many places buffer `x` is. */
  function Count(s: State, x: nat): nat {
    Occurs(s.pool, x) + Occurs(Flatten(s.posted), x) + Occurs(WorkBuffers(s.cq), x)
    + Occurs(WorkBuffers(s.work), x) + Occurs(EntryBuffers(s.irb), x) + Occurs(EntryBuffers(s.held), x)
  }

  /** Conservation: every buffer of the pool is in exactly one place, and there are no others. */
  ghost predicate Conserved(c: Setup, s: State) {
    forall x: nat :: Count(s, x) == if x < c.count then 1 else 0
  }

  /** What is yet to be handed over. */
  function Todo(s: State, size: nat): seq<Entry> {
    s.irb + AllEntries(s.work, size) + AllEntries(s.cq, size)
  }

  function Arrivals(ms: seq<Message>): seq<Item> {
    if ms == [] then [] else MessageItems(ms[0]) + Arrivals(ms[1..])
  }

  /** What was handed over, and what is yet to be handed over, is what arrived. */
  ghost predicate InOrder(c: Setup, s: State) {
    && |s.region| == c.count * c.size
    && AllReadable(s.region, Todo(s, c.size), c.size)
    && s.delivered + Items(s.region, Todo(s, c.size), c.size) == Arrivals(s.arrived)
  }

  /** What the handler holds stays what it was given. */
  ghost predicate Stable(c: Setup, s: State) {
    && |s.seen| == |s.held|
    && AllReadable(s.region, s.held, c.size)
    && forall i :: 0 <= i < |s.held| ==> EntryItems(s.region, s.held[i], c.size) == s.seen[i]
  }

  ghost predicate GoodWork(c: Setup, w: Work) {
    |w.buffers| == c.maxSges && w.length <= c.maxSges * c.size && (w.length > 0 || w.fc > 0)
  }

  /** Nothing overflows and nothing runs dry. */
  ghost predicate Resourced(c: Setup, s: State) {
    && s.pending == |s.posted| + |s.cq| <= c.queueSize
    && |s.work| <= c.queueSize
    && s.freeRequests == 2 * c.queueSize - |s.posted| - |s.cq| - |s.work|
    && |s.irb| + |s.work| * c.maxSges <= c.RingSize()
    && (s.phase == Polling || s.phase == Delivering ==> s.work == [])
    && (forall b :: b in s.posted ==> |b| == c.maxSges)
    && (forall w :: w in s.cq || w in s.work ==> GoodWork(c, w))
  }

  ghost predicate Inv(c: Setup, s: State) {
    Conserved(c, s) && InOrder(c, s) && Stable(c, s) && Resourced(c, s)
  }

  ghost predicate Init(c: Setup, s: State) {
    && |s.region| == c.count * c.size && s.pool == Indices(c.count)
    && s.posted == [] && s.cq == [] && s.work == [] && s.irb == [] && s.held == [] && s.seen == []
    && s.arrived == [] && s.delivered == []
    && s.pending == 0 && s.freeRequests == 2 * c.queueSize && s.phase == Polling
  }

  /** `events` can happen one after the other. */
  ghost predicate IsRun(c: Setup, s: State, events: seq<Event>)
    requires c.Valid()
    decreases |events|
  {
    events == [] || (Enabled(c, s, events[0]) && IsRun(c, Apply(c, s, events[0]), events[1..]))
  }

  ghost function Final(c: Setup, s: State, events: seq<Event>): State
    requires c.Valid() && IsRun(c, s, events)
    decreases |events|
  {
    if events == [] then s else Final(c, Apply(c, s, events[0]), events[1..])
  }
}
