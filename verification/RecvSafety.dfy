/** Every run of the receive side keeps its buffers, delivers what arrived in order and stays within its queues. */
module RecvSafety {
  import opened Arithmetic
  import opened Finite
  import opened Rings
  import opened Streams
  import opened RecvBuffers
  import opened RecvRuns

  // Concatenation

  lemma {:induction false} WorkBuffersConcat(a: seq<Work>, b: seq<Work>)
    ensures WorkBuffers(a + b) == WorkBuffers(a) + WorkBuffers(b)
  {
    if a == [] {
      assert a + b == b;
    } else {
      WorkBuffersConcat(a[1..], b);
      ConcatTail(a, b);
      Associative(a[0].buffers, WorkBuffers(a[1..]), WorkBuffers(b));
    }
  }

  lemma {:induction false} AllEntriesConcat(a: seq<Work>, b: seq<Work>, size: nat)
    ensures AllEntries(a + b, size) == AllEntries(a, size) + AllEntries(b, size)
  {
    hide Entries;
    if a == [] {
      assert a + b == b;
    } else {
      AllEntriesConcat(a[1..], b, size);
      ConcatTail(a, b);
      Associative(Entries(a[0], size), AllEntries(a[1..], size), AllEntries(b, size));
    }
  }

  lemma {:induction false} EntryBuffersConcat(a: seq<Entry>, b: seq<Entry>)
    ensures EntryBuffers(a + b) == EntryBuffers(a) + EntryBuffers(b)
  {
    if a == [] {
      assert a + b == b;
    } else {
      EntryBuffersConcat(a[1..], b);
      ConcatTail(a, b);
      Associative(if a[0].buffer.Some? then [a[0].buffer.value] else [], EntryBuffers(a[1..]), EntryBuffers(b));
    }
  }

  lemma {:induction false} ArrivalsPush(ms: seq<Message>, m: Message)
    ensures Arrivals(ms + [m]) == Arrivals(ms) + MessageItems(m)
  {
    hide MessageItems;
    if ms == [] {
      assert [m][1..] == [];
    } else {
      ArrivalsPush(ms[1..], m);
      assert (ms + [m])[1..] == ms[1..] + [m];
    }
  }

  lemma {:induction false} GroupsFlatten(buffers: seq<nat>, n: nat, count: nat, used: nat)
    requires used == count * n && used <= |buffers|
    ensures Flatten(Groups(buffers, n, count)) == buffers[..used]
  {
    if count == 0 {
      NoGroups(buffers, n);
    } else {
      hide Flatten, Groups;
      Distribute(count - 1, n);
      GroupsFlatten(buffers, n, count - 1, used - n);
      GroupsPush(buffers, n, count - 1);
      PushGroup(buffers, n, used - n, Groups(buffers, n, count - 1));
    }
  }

  lemma PushGroup(buffers: seq<nat>, n: nat, done: nat, groups: seq<seq<nat>>)
    requires done + n <= |buffers| && Flatten(groups) == buffers[..done]
    ensures Flatten(groups + [buffers[done..done + n]]) == buffers[..done + n]
  {
    FlattenPush(groups, buffers[done..done + n]);
    TakeMore(buffers, done, n);
  }

  lemma TakeMore<T>(s: seq<T>, a: nat, b: nat)
    requires a + b <= |s|
    ensures s[..a + b] == s[..a] + s[a..a + b]
  {}

  // One place for every buffer

  lemma EntriesAndUnused(w: Work, size: nat)
    ensures w.buffers == EntryBuffers(Entries(w, size)) + Unused(w, size)
  {
    if w.length > 0 {
      var es := DataEntries(w.source, w.fc, w.buffers, size, w.length);
      DataEntriesBuffers(w.source, w.fc, w.buffers, size, w.length, es);
      assert w.buffers == w.buffers[..|es|] + w.buffers[|es|..];
    } else {
      assert Entries(w, size)[1..] == [];
    }
  }

  lemma {:induction false} EntriesOfWork(ws: seq<Work>, size: nat, x: nat)
    ensures Occurs(EntryBuffers(AllEntries(ws, size)), x) <= Occurs(WorkBuffers(ws), x)
  {
    hide Entries, Unused, Occurs;
    if ws != [] {
      EntriesOfWork(ws[1..], size, x);
      WorkSplits(ws[0], size, x);
      EntryBuffersConcat(Entries(ws[0], size), AllEntries(ws[1..], size));
      OccursConcat(EntryBuffers(Entries(ws[0], size)), EntryBuffers(AllEntries(ws[1..], size)), x);
      OccursConcat(ws[0].buffers, WorkBuffers(ws[1..]), x);
    } else {
      OccursIn<nat>([], x);
    }
  }

  lemma WorkSplits(w: Work, size: nat, x: nat)
    ensures Occurs(w.buffers, x) == Occurs(EntryBuffers(Entries(w, size)), x) + Occurs(Unused(w, size), x)
  {
    EntriesAndUnused(w, size);
    OccursConcat(EntryBuffers(Entries(w, size)), Unused(w, size), x);
  }

  lemma FlattenWithout(posted: seq<seq<nat>>, i: nat, x: nat)
    requires i < |posted|
    ensures Occurs(Flatten(posted), x) == Occurs(Flatten(Without(posted, i)), x) + Occurs(posted[i], x)
  {
    hide Occurs, Flatten;
    var a, own, b := posted[..i], [posted[i]], posted[i + 1..];
    assert posted == a + (own + b) && Without(posted, i) == a + b;
    FlattenConcat(a, own + b);
    FlattenConcat(own, b);
    FlattenConcat(a, b);
    FlattenOne(posted[i]);
    OccursConcat(Flatten(a), posted[i] + Flatten(b), x);
    OccursConcat(posted[i], Flatten(b), x);
    OccursConcat(Flatten(a), Flatten(b), x);
  }

  lemma FlattenOne(part: seq<nat>)
    ensures Flatten([part]) == part
  {
    assert [part][1..] == [];
  }

  lemma ArriveMoves(posted: seq<seq<nat>>, i: nat, cq: seq<Work>, w: Work, x: nat)
    requires i < |posted| && w.buffers == posted[i]
    ensures Occurs(Flatten(Without(posted, i)), x) + Occurs(WorkBuffers(cq + [w]), x)
         == Occurs(Flatten(posted), x) + Occurs(WorkBuffers(cq), x)
  {
    hide Occurs;
    WorkBuffersConcat(cq, [w]);
    assert [w][1..] == [];
    assert WorkBuffers([w]) == posted[i];
    OccursConcat(WorkBuffers(cq), posted[i], x);
    FlattenWithout(posted, i, x);
  }

  lemma ReturnMoves(held: seq<Entry>, i: nat, x: nat)
    requires i < |held|
    ensures Occurs(EntryBuffers(held), x)
         == Occurs(EntryBuffers(held[..i] + held[i + 1..]), x) + Occurs(EntryBuffers([held[i]]), x)
  {
    hide EntryBuffers, Occurs;
    var a, e, b := held[..i], held[i], held[i + 1..];
    assert held == a + ([e] + b);
    EntryBuffersConcat(a, [e] + b);
    EntryBuffersConcat([e], b);
    EntryBuffersConcat(a, b);
    OccursConcat(EntryBuffers(a), EntryBuffers([e]) + EntryBuffers(b), x);
    OccursConcat(EntryBuffers([e]), EntryBuffers(b), x);
    OccursConcat(EntryBuffers(a), EntryBuffers(b), x);
  }

  lemma PollMoves(cq: seq<Work>, k: nat, x: nat)
    requires k <= |cq|
    ensures Occurs(WorkBuffers(cq), x) == Occurs(WorkBuffers(cq[..k]), x) + Occurs(WorkBuffers(cq[k..]), x)
  {
    hide WorkBuffers, Occurs;
    assert cq == cq[..k] + cq[k..];
    WorkBuffersConcat(cq[..k], cq[k..]);
    OccursConcat(WorkBuffers(cq[..k]), WorkBuffers(cq[k..]), x);
  }

  lemma RefillMoves(pool: seq<nat>, posted: seq<seq<nat>>, n: nat, count: nat, got: nat, x: nat)
    requires count * n <= got <= |pool|
    ensures Occurs(pool[got..] + pool[count * n..got], x) + Occurs(Flatten(posted + Groups(pool, n, count)), x)
         == Occurs(pool, x) + Occurs(Flatten(posted), x)
  {
    hide Flatten, Groups, Occurs;
    FlattenConcat(posted, Groups(pool, n, count));
    GroupsFlatten(pool, n, count, count * n);
    OccursConcat(Flatten(posted), pool[..count * n], x);
    RefillSum(pool, count * n, got, x);
  }

  lemma RefillSum(pool: seq<nat>, used: nat, got: nat, x: nat)
    requires used <= got <= |pool|
    ensures Occurs(pool[got..] + pool[used..got], x) + Occurs(pool[..used], x) == Occurs(pool, x)
  {
    hide Occurs;
    assert pool == pool[..used] + (pool[used..got] + pool[got..]);
    Rotated(pool[..used], pool[used..got], pool[got..], x);
  }

  lemma Rotated(a: seq<nat>, b: seq<nat>, d: seq<nat>, x: nat)
    ensures Occurs(d + b, x) + Occurs(a, x) == Occurs(a + (b + d), x)
  {
    OccursConcat(a, b + d, x);
    OccursConcat(b, d, x);
    OccursConcat(d, b, x);
  }

  lemma ProcessMoves(pool: seq<nat>, irb: seq<Entry>, work: seq<Work>, size: nat, x: nat)
    requires work != []
    ensures Occurs(pool + Unused(work[0], size), x) + Occurs(EntryBuffers(irb + Entries(work[0], size)), x)
              + Occurs(WorkBuffers(work[1..]), x)
         == Occurs(pool, x) + Occurs(EntryBuffers(irb), x) + Occurs(WorkBuffers(work), x)
  {
    hide Entries, Unused, EntryBuffers, Occurs;
    WorkSplits(work[0], size, x);
    EntryBuffersConcat(irb, Entries(work[0], size));
    OccursConcat(EntryBuffers(irb), EntryBuffers(Entries(work[0], size)), x);
    OccursConcat(pool, Unused(work[0], size), x);
    OccursConcat(work[0].buffers, WorkBuffers(work[1..]), x);
  }

  lemma DeliverMoves(irb: seq<Entry>, held: seq<Entry>, p: nat, x: nat)
    requires p <= |irb|
    ensures Occurs(EntryBuffers(irb[p..]), x) + Occurs(EntryBuffers(held + irb[..p]), x)
         == Occurs(EntryBuffers(irb), x) + Occurs(EntryBuffers(held), x)
  {
    hide EntryBuffers, Occurs;
    EntryBuffersConcat(irb[..p], irb[p..]);
    EntryBuffersConcat(held, irb[..p]);
    assert irb == irb[..p] + irb[p..];
    OccursConcat(EntryBuffers(irb[..p]), EntryBuffers(irb[p..]), x);
    OccursConcat(EntryBuffers(held), EntryBuffers(irb[..p]), x);
  }

  /** No step moves a buffer out of the count. */
  lemma StepCounts(c: Setup, s: State, e: Event, x: nat)
    requires c.Valid() && Enabled(c, s, e) && (e.Poll? ==> s.work == [])
    ensures Count(Apply(c, s, e), x) == Count(s, x)
  {
    hide Occurs, Flatten, WorkBuffers, EntryBuffers, Scatter, AllInRegion, Entries, Unused, Items, EachItems,
         AllReadable, Groups, RefillCount;
    match e
    case Arrive(m, i) => ArriveMoves(s.posted, i, s.cq, MessageWork(s.posted[i], m), x);
    case Return(i) =>
      ReturnMoves(s.held, i, x);
      OccursConcat(s.pool, EntryBuffers([s.held[i]]), x);
    case Poll(k) =>
      PollMoves(s.cq, k, x);
      NoWork(x);
    case Refill(got) =>
      RefillMoves(s.pool, s.posted, c.maxSges, RefillCount(c, s.pending, got), got, x);
    case Process => ProcessMoves(s.pool, s.irb, s.work, c.size, x);
    case EndProcess =>
    case Deliver(p) => DeliverMoves(s.irb, s.held, p, x);
  }

  lemma NoWork(x: nat)
    ensures Occurs(WorkBuffers([]), x) == 0
  {}

  lemma StepConserves(c: Setup, s: State, e: Event)
    requires c.Valid() && Enabled(c, s, e) && (e.Poll? ==> s.work == [])
    requires Conserved(c, s)
    ensures Conserved(c, Apply(c, s, e))
  {
    hide Count, Enabled, Apply;
    forall x: nat ensures Count(Apply(c, s, e), x) == if x < c.count then 1 else 0 {
      StepCounts(c, s, e, x);
    }
  }

  // The stream

  /** Where buffer `x` is, if it is in a posted work request. */
  lemma PostedOnly(c: Setup, s: State, i: nat, x: nat)
    requires Conserved(c, s) && i < |s.posted|
    ensures Occurs(s.posted[i], x) <= 1
    ensures x in s.posted[i] ==> x < c.count && x !in EntryBuffers(Todo(s, c.size)) && x !in EntryBuffers(s.held)
  {
    hide Occurs, EntryBuffers, AllEntries, WorkBuffers;
    assert Count(s, x) <= 1;
    FlattenWithout(s.posted, i, x);
    OccursIn(s.posted[i], x);
    OccursIn(EntryBuffers(s.held), x);
    TodoCount(s, c.size, x);
    OccursIn(EntryBuffers(Todo(s, c.size)), x);
  }

  lemma TodoCount(s: State, size: nat, x: nat)
    ensures Occurs(EntryBuffers(Todo(s, size)), x)
         <= Occurs(EntryBuffers(s.irb), x) + Occurs(WorkBuffers(s.work), x) + Occurs(WorkBuffers(s.cq), x)
  {
    hide Occurs, EntryBuffers, AllEntries, WorkBuffers;
    EntriesOfWork(s.work, size, x);
    EntriesOfWork(s.cq, size, x);
    var a, b, d := s.irb, AllEntries(s.work, size), AllEntries(s.cq, size);
    EntryBuffersConcat(a + b, d);
    EntryBuffersConcat(a, b);
    OccursConcat(EntryBuffers(a + b), EntryBuffers(d), x);
    OccursConcat(EntryBuffers(a), EntryBuffers(b), x);
  }

  /** The buffers of a posted work request are distinct, inside the region, and nobody else's. */
  lemma PostedIsOwn(c: Setup, s: State, i: nat)
    requires Conserved(c, s) && |s.region| == c.count * c.size && i < |s.posted|
    ensures AllInRegion(s.region, s.posted[i], c.size) && Distinct(s.posted[i])
    ensures forall b :: b in EntryBuffers(Todo(s, c.size)) ==> b !in s.posted[i]
    ensures forall b :: b in EntryBuffers(s.held) ==> b !in s.posted[i]
  {
    hide Occurs, EntryBuffers, Todo, Count;
    forall x ensures Occurs(s.posted[i], x) <= 1 { PostedOnly(c, s, i, x); }
    OnceIsDistinct(s.posted[i]);
    forall b | b in s.posted[i]
      ensures InRegion(s.region, b, c.size) && b !in EntryBuffers(Todo(s, c.size)) && b !in EntryBuffers(s.held)
    {
      PostedOnly(c, s, i, b);
      MulMonotone(b + 1, c.count, c.size);
      Distribute(b, c.size);
    }
  }

  /** A message that arrives adds its own items to what there is to hand over, and changes nothing else. */
  lemma ArriveShows(c: Setup, s: State, m: Message, own: seq<nat>, after: seq<Byte>, w: Work)
    requires AllInRegion(s.region, own, c.size) && Distinct(own)
    requires after == Scatter(s.region, own, c.size, m.payload) && w == MessageWork(own, m)
    requires |m.payload| <= |own| * c.size && (m.payload != [] || m.fc > 0)
    ensures AllReadable(after, Entries(w, c.size), c.size)
    ensures Items(after, Entries(w, c.size), c.size) == MessageItems(m)
  {
    hide Scatter, Read, Marked, Credit, DataEntries, AllInRegion;
    if m.payload == [] {
      var e := Entry(m.source, m.fc, None, 0);
      assert Entries(w, c.size) == [e];
      ItemsOfOne(after, e, c.size);
      NoBytes(m.source);
    } else {
      ScatterThenRead(s.region, m.source, m.fc, own, c.size, m.payload, after, Entries(w, c.size));
    }
  }

  lemma NoBytes(node: nat)
    ensures Marked(node, []) == []
  {}

  lemma {:induction false} InOrderArrive(c: Setup, s: State, m: Message, i: nat)
    requires c.Valid() && Conserved(c, s) && InOrder(c, s) && Enabled(c, s, Arrive(m, i))
    requires |s.posted[i]| == c.maxSges
    ensures InOrder(c, Apply(c, s, Arrive(m, i)))
  {
    hide Scatter, Entries, MessageItems, AllReadable, Items, AllInRegion, Conserved, MessageWork;
    var own, todo := s.posted[i], Todo(s, c.size);
    var after := Scatter(s.region, own, c.size, m.payload);
    var w := MessageWork(own, m);
    PostedIsOwn(c, s, i);
    ItemsFrame(s.region, own, c.size, m.payload, todo);
    ArriveShows(c, s, m, own, after, w);
    ItemsConcat(after, todo, Entries(w, c.size), c.size);
    AllEntriesConcat(s.cq, [w], c.size);
    assert [w][1..] == [];
    ArrivalsPush(s.arrived, m);
    var s' := Apply(c, s, Arrive(m, i));
    assert Todo(s', c.size) == todo + Entries(w, c.size);
  }

  lemma InOrderPoll(c: Setup, s: State, k: nat)
    requires c.Valid() && InOrder(c, s) && Enabled(c, s, Poll(k)) && s.work == []
    ensures InOrder(c, Apply(c, s, Poll(k)))
  {
    hide AllEntries, AllReadable, Items, PollLimit;
    assert s.cq == s.cq[..k] + s.cq[k..];
    AllEntriesConcat(s.cq[..k], s.cq[k..], c.size);
    NoEntriesOfNone(c.size);
    Associative(s.irb, AllEntries(s.cq[..k], c.size), AllEntries(s.cq[k..], c.size));
    assert s.irb + [] == s.irb;
    assert Todo(Apply(c, s, Poll(k)), c.size) == Todo(s, c.size);
  }

  lemma NoEntriesOfNone(size: nat)
    ensures AllEntries([], size) == []
  {}

  lemma InOrderProcess(c: Setup, s: State)
    requires c.Valid() && InOrder(c, s) && Enabled(c, s, Process)
    ensures InOrder(c, Apply(c, s, Process))
  {
    hide Entries, AllReadable, Items;
    assert Todo(Apply(c, s, Process), c.size) == Todo(s, c.size);
  }

  lemma ReadableParts(region: seq<Byte>, a: seq<Entry>, b: seq<Entry>, size: nat)
    requires AllReadable(region, a + b, size)
    ensures AllReadable(region, a, size) && AllReadable(region, b, size)
  {
    forall i | 0 <= i < |a| ensures Readable(region, a[i], size) { assert a[i] == (a + b)[i]; }
    forall i | 0 <= i < |b| ensures Readable(region, b[i], size) { assert b[i] == (a + b)[|a| + i]; }
  }

  lemma InOrderDeliver(c: Setup, s: State, p: nat)
    requires c.Valid() && InOrder(c, s) && Enabled(c, s, Deliver(p))
    ensures InOrder(c, Apply(c, s, Deliver(p)))
  {
    hide Entries, AllReadable, Items, EntryItems;
    var s' := Apply(c, s, Deliver(p));
    var given, rest := s.irb[..p], Todo(s', c.size);
    assert s.irb == given + s.irb[p..];
    assert Todo(s, c.size) == given + rest;
    ReadableParts(s.region, given, rest, c.size);
    ItemsConcat(s.region, given, rest, c.size);
  }

  // What the handler holds

  lemma StableArrive(c: Setup, s: State, m: Message, i: nat)
    requires c.Valid() && Conserved(c, s) && Stable(c, s) && Enabled(c, s, Arrive(m, i))
    requires |s.region| == c.count * c.size
    ensures Stable(c, Apply(c, s, Arrive(m, i)))
  {
    hide Scatter, Read, Conserved, AllInRegion, Marked, Credit;
    PostedIsOwn(c, s, i);
    var own := s.posted[i];
    var after := Scatter(s.region, own, c.size, m.payload);
    forall j | 0 <= j < |s.held|
      ensures Readable(after, s.held[j], c.size)
      ensures EntryItems(after, s.held[j], c.size) == EntryItems(s.region, s.held[j], c.size)
    {
      var e := s.held[j];
      if e.buffer.Some? {
        HeldBuffer(s.held, j);
        ScatterFrame(s.region, own, c.size, m.payload, e.buffer.value, e.length);
      }
    }
  }

  lemma {:induction false} HeldBuffer(es: seq<Entry>, i: nat)
    requires i < |es| && es[i].buffer.Some?
    ensures es[i].buffer.value in EntryBuffers(es)
  {
    if i > 0 {
      assert es[1..][i - 1] == es[i];
      HeldBuffer(es[1..], i - 1);
    }
  }

  lemma StableReturn(c: Setup, s: State, i: nat)
    requires c.Valid() && Stable(c, s) && Enabled(c, s, Return(i))
    ensures Stable(c, Apply(c, s, Return(i)))
  {
    hide EntryItems;
    var s' := Apply(c, s, Return(i));
    forall j | 0 <= j < |s'.held|
      ensures Readable(s.region, s'.held[j], c.size) && EntryItems(s.region, s'.held[j], c.size) == s'.seen[j]
    {
      var k := if j < i then j else j + 1;
      assert s'.held[j] == s.held[k] && s'.seen[j] == s.seen[k];
    }
  }

  lemma StableDeliver(c: Setup, s: State, p: nat)
    requires c.Valid() && Stable(c, s) && Enabled(c, s, Deliver(p))
    ensures Stable(c, Apply(c, s, Deliver(p)))
  {
    hide EntryItems, Readable;
  }

  // Queues and pools

  /** What a step of the dispatcher needs from its own queues: work request objects, room in the ring buffer, room
      in the receive queue. Nothing else but `Enabled` can stop it. */
  lemma EnoughRoom(c: Setup, s: State)
    requires c.Valid() && Resourced(c, s)
    ensures 0 <= s.pending <= c.queueSize
    ensures c.queueSize - s.pending <= s.freeRequests
    ensures s.work != [] ==> |s.irb| + c.maxSges <= c.RingSize() && s.freeRequests < 2 * c.queueSize
    ensures s.work != [] ==> |Entries(s.work[0], c.size)| <= c.maxSges
  {
    if s.work != [] {
      MulMonotone(1, |s.work|, c.maxSges);
      assert s.work[0] in s.work;
    }
  }

  lemma WithoutIn(posted: seq<seq<nat>>, i: nat)
    requires i < |posted|
    ensures posted[i] in posted && forall b :: b in Without(posted, i) ==> b in posted
  {
    forall b | b in Without(posted, i) ensures b in posted {
      var k :| 0 <= k < |Without(posted, i)| && Without(posted, i)[k] == b;
    }
  }

  lemma {:induction false} ResourcedStep(c: Setup, s: State, e: Event)
    requires c.Valid() && Resourced(c, s) && Enabled(c, s, e)
    ensures Resourced(c, Apply(c, s, e))
  {
    hide Scatter, AllInRegion, Items, EachItems, AllReadable, Unused, EntryBuffers, Entries;
    match e
    case Arrive(m, i) => WithoutIn(s.posted, i);
    case Return(i) =>
    case Poll(k) => PollFits(c, s, k);
    case Refill(got) =>
    case Process => ResourcedProcess(c, s);
    case EndProcess =>
    case Deliver(p) =>
  }

  lemma ResourcedProcess(c: Setup, s: State)
    requires c.Valid() && Resourced(c, s) && Enabled(c, s, Process)
    ensures Resourced(c, Apply(c, s, Process))
  {
    hide Entries, Unused;
    EnoughRoom(c, s);
    Distribute(|s.work| - 1, c.maxSges);
  }

  lemma PollFits(c: Setup, s: State, k: nat)
    requires c.Valid() && |s.irb| <= c.RingSize()
    requires k <= PollLimit(c.RingSize() - |s.irb|, c.maxSges, c.queueSize)
    ensures |s.irb| + k * c.maxSges <= c.RingSize()
  {
    MulMonotone(k, PollLimit(c.RingSize() - |s.irb|, c.maxSges, c.queueSize), c.maxSges);
  }

  // Whole runs

  lemma StepInv(c: Setup, s: State, e: Event)
    requires c.Valid() && Inv(c, s) && Enabled(c, s, e)
    ensures Inv(c, Apply(c, s, e))
  {
    ResourcedStep(c, s, e);
    StepConserves(c, s, e);
    StepInOrder(c, s, e);
    StepStable(c, s, e);
  }

  lemma StepInOrder(c: Setup, s: State, e: Event)
    requires c.Valid() && Inv(c, s) && Enabled(c, s, e)
    ensures InOrder(c, Apply(c, s, e))
    ensures Apply(c, s, e).arrived == if e.Arrive? then s.arrived + [e.message] else s.arrived
    ensures |Apply(c, s, e).delivered| >= |s.delivered| && Apply(c, s, e).delivered[..|s.delivered|] == s.delivered
    ensures e.Deliver? ==> |Apply(c, s, e).irb| == |s.irb| - e.processed
  {
    hide Conserved, Scatter, AllInRegion, AllReadable, Items, Arrivals, Entries, AllEntries, Stable;
    match e
    case Arrive(m, i) =>
      assert s.posted[i] in s.posted;
      InOrderArrive(c, s, m, i);
    case Return(i) =>
    case Poll(k) => InOrderPoll(c, s, k);
    case Refill(got) =>
    case Process => InOrderProcess(c, s);
    case EndProcess =>
    case Deliver(p) => InOrderDeliver(c, s, p);
  }

  lemma StepStable(c: Setup, s: State, e: Event)
    requires c.Valid() && Inv(c, s) && Enabled(c, s, e)
    ensures Stable(c, Apply(c, s, e))
  {
    hide Conserved, Scatter, AllInRegion, AllReadable, Readable, EntryItems, Items, Entries, Resourced;
    match e
    case Arrive(m, i) => StableArrive(c, s, m, i);
    case Return(i) => StableReturn(c, s, i);
    case Poll(k) =>
    case Refill(got) =>
    case Process =>
    case EndProcess =>
    case Deliver(p) => StableDeliver(c, s, p);
  }

  lemma InitInv(c: Setup, s: State)
    requires c.Valid() && Init(c, s)
    ensures Inv(c, s)
  {
    forall x: nat ensures Count(s, x) == if x < c.count then 1 else 0 {
      OccursIndices(c.count, x);
    }
  }

  /** In every run, whatever the adapter and the handler do in between: no buffer is lost or in two places; what
      was handed over, followed by what is still inside, is what arrived; what the handler holds does not change;
      no queue overflows and no pool of work requests runs dry. */
  lemma {:induction false} EveryRun(c: Setup, s: State, events: seq<Event>)
    requires c.Valid() && Inv(c, s) && IsRun(c, s, events)
    decreases |events|
    ensures Inv(c, Final(c, s, events))
  {
    hide Inv, Enabled, Apply;
    if events != [] {
      StepInv(c, s, events[0]);
      EveryRun(c, Apply(c, s, events[0]), events[1..]);
    }
  }

  /** What was handed over is a prefix of what arrived, and all of it once nothing is inside. */
  lemma {:induction false} HandedOver(c: Setup, s: State, events: seq<Event>)
    requires c.Valid() && Init(c, s) && IsRun(c, s, events)
    ensures var last := Final(c, s, events);
            && last.delivered <= Arrivals(last.arrived)
            && (last.irb == [] && last.work == [] && last.cq == [] ==> last.delivered == Arrivals(last.arrived))
  {
    InitInv(c, s);
    EveryRun(c, s, events);
  }

  /** A poll may take any number of completions that the ring has room for. */
  lemma LimitReached(free: nat, maxSges: nat, queueSize: nat, k: nat)
    requires maxSges > 0 && k <= queueSize && k * maxSges <= free
    ensures k <= PollLimit(free, maxSges, queueSize)
  {
    var limit := PollLimit(free, maxSges, queueSize);
    if limit < k { MulMonotone(limit + 1, k, maxSges); }
  }

  /** A refill posts until the queue is full or what was left of the pool, but for one buffer, did not make up another
      work request. */
  lemma RefillGoesFar(c: Setup, pool: seq<nat>, pending: int, got: nat)
    requires c.Valid() && pending < c.queueSize && Refilled(c, pool, pending, got)
    ensures var count := RefillCount(c, pending, got);
            pending + count == c.queueSize
            || (pending + count < c.queueSize && |pool| <= (count + 1) * c.maxSges)
  {
    var count := RefillCount(c, pending, got);
    if pending + count < c.queueSize {
      MulMonotone(count + 1, c.queueSize - pending, c.maxSges);
    }
  }

  /** What `Enabled` asks of a step, beyond the choices of the pool, of the adapter and of the handler, always
      holds: the dispatcher is never stuck, a poll can take whatever the ring has room for, a refill can go on with
      what it asks for or with all there is, and what the handler is shown can be read. */
  lemma NeverStuck(c: Setup, s: State, p: nat)
    requires c.Valid() && Inv(c, s) && p <= |s.irb|
    ensures s.phase == Polling ==>
              forall k: nat :: k <= |s.cq| && k <= c.queueSize && |s.irb| + k * c.maxSges <= c.queueSize * c.maxSges ==>
                Enabled(c, s, Poll(k))
    ensures s.phase == Polling && s.irb == [] ==> Enabled(c, s, Poll(Min(|s.cq|, c.queueSize)))
    ensures s.phase == Refilling && s.pending < c.queueSize ==>
              forall got: nat :: got == |s.pool| <= (c.queueSize - s.pending) * c.maxSges
                                 || got == (c.queueSize - s.pending) * c.maxSges <= |s.pool| ==>
                Enabled(c, s, Refill(got))
    ensures s.phase == Refilling && s.pending >= c.queueSize ==> Enabled(c, s, Refill(0))
    ensures s.phase == Processing ==> if s.work == [] then Enabled(c, s, EndProcess) else Enabled(c, s, Process)
    ensures s.phase == Delivering ==> Enabled(c, s, Deliver(p))
    ensures forall m: Message, i: nat ::
              i < |s.posted| && |m.payload| <= c.maxSges * c.size && (m.payload != [] || m.fc > 0) ==>
                Enabled(c, s, Arrive(m, i))
    ensures forall i: nat :: i < |s.held| ==> Enabled(c, s, Return(i))
  {
    hide Conserved, AllInRegion, AllReadable, Items, Stable, Entries, AllEntries;
    ReadableParts(s.region, s.irb + AllEntries(s.work, c.size), AllEntries(s.cq, c.size), c.size);
    ReadableParts(s.region, s.irb, AllEntries(s.work, c.size), c.size);
    forall i | 0 <= i < |s.posted| ensures AllInRegion(s.region, s.posted[i], c.size) { PostedIsOwn(c, s, i); }
    RingRoom(c, s);
    forall k: nat | k <= |s.cq| && k <= c.queueSize && |s.irb| + k * c.maxSges <= c.queueSize * c.maxSges
      ensures k <= PollLimit(c.RingSize() - |s.irb|, c.maxSges, c.queueSize)
    {
      LimitReached(c.RingSize() - |s.irb|, c.maxSges, c.queueSize, k);
    }
    MulMonotone(Min(|s.cq|, c.queueSize), c.queueSize, c.maxSges);
  }

  lemma RingRoom(c: Setup, s: State)
    requires c.Valid() && Resourced(c, s)
    ensures |s.irb| <= c.RingSize()
  {
    hide GoodWork;
    MulMonotone(0, |s.work|, c.maxSges);
  }

  // A dispatch as a whole

  /** The state once all the polled completions are processed. */
  ghost function Processed(c: Setup, s: State): State {
    s.(pool := s.pool + AllUnused(s.work, c.size), irb := s.irb + AllEntries(s.work, c.size), work := [],
       freeRequests := s.freeRequests + |s.work|, phase := Delivering)
  }

  function ProcessEvents(n: nat): seq<Event> {
    if n == 0 then [EndProcess] else [Process] + ProcessEvents(n - 1)
  }

  lemma {:induction false} ProcessAll(c: Setup, s: State)
    requires c.Valid() && s.phase == Processing
    decreases |s.work|
    ensures IsRun(c, s, ProcessEvents(|s.work|)) && Final(c, s, ProcessEvents(|s.work|)) == Processed(c, s)
  {
    hide Entries, Unused;
    if s.work == [] {
      assert s.pool + [] == s.pool && s.irb + [] == s.irb;
      assert [EndProcess][1..] == [];
    } else {
      var next := Apply(c, s, Process);
      assert ProcessEvents(|s.work|)[1..] == ProcessEvents(|next.work|);
      ProcessAll(c, next);
      Associative(s.pool, Unused(s.work[0], c.size), AllUnused(next.work, c.size));
      Associative(s.irb, Entries(s.work[0], c.size), AllEntries(next.work, c.size));
    }
  }

  lemma {:induction false} RunConcat(c: Setup, s: State, a: seq<Event>, b: seq<Event>)
    requires c.Valid() && IsRun(c, s, a) && IsRun(c, Final(c, s, a), b)
    decreases |a|
    ensures IsRun(c, s, a + b) && Final(c, s, a + b) == Final(c, Final(c, s, a), b)
  {
    hide Enabled, Apply;
    if a == [] {
      assert a + b == b;
    } else {
      ConcatTail(a, b);
      RunConcat(c, Apply(c, s, a[0]), a[1..], b);
    }
  }

  lemma {:induction false} RunStep(c: Setup, s: State, e: Event)
    requires c.Valid() && Enabled(c, s, e)
    ensures IsRun(c, s, [e]) && Final(c, s, [e]) == Apply(c, s, e)
  {
    hide Enabled, Apply;
    assert [e][1..] == [];
  }

  /** A run and one more step. */
  lemma ExtendRun(c: Setup, s: State, events: seq<Event>, cur: State, e: Event)
    requires c.Valid() && IsRun(c, s, events) && cur == Final(c, s, events) && Inv(c, cur) && Enabled(c, cur, e)
    ensures IsRun(c, s, events + [e]) && Final(c, s, events + [e]) == Apply(c, cur, e) && Inv(c, Apply(c, cur, e))
  {
    hide Inv, Enabled, Apply, IsRun, Final;
    RunStep(c, cur, e);
    RunConcat(c, s, events, [e]);
    StepInv(c, cur, e);
  }

  /** A run and the processing of all completions. */
  lemma ExtendProcessed(c: Setup, s: State, events: seq<Event>, cur: State)
    requires c.Valid() && IsRun(c, s, events) && cur == Final(c, s, events) && Inv(c, cur) && cur.phase == Processing
    ensures IsRun(c, s, events + ProcessEvents(|cur.work|))
    ensures Final(c, s, events + ProcessEvents(|cur.work|)) == Processed(c, cur) && Inv(c, Processed(c, cur))
  {
    hide Inv, Enabled, Apply, IsRun, Final, Processed;
    ProcessAll(c, cur);
    RunConcat(c, s, events, ProcessEvents(|cur.work|));
    ProcessedInv(c, cur);
  }

  lemma ProcessedInv(c: Setup, s: State)
    requires c.Valid() && Inv(c, s) && s.phase == Processing
    ensures Inv(c, Processed(c, s))
  {
    hide Inv, Processed;
    ProcessAll(c, s);
    EveryRun(c, s, ProcessEvents(|s.work|));
  }

  /** What a refill does to the parts of the state that the dispatcher keeps. */
  lemma RefillStep(c: Setup, s: State, got: nat, count: nat)
    requires c.Valid() && s.phase == Refilling && Refilled(c, s.pool, s.pending, got)
    requires count == RefillCount(c, s.pending, got)
    ensures Enabled(c, s, Refill(got))
    ensures var after := Apply(c, s, Refill(got));
            && after.pool == RefillPool(c, s.pool, s.pending, got)
            && after.posted == s.posted + RefillPosted(c, s.pool, s.pending, got)
            && after.pending == s.pending + count && after.freeRequests == s.freeRequests - count
            && after.irb == s.irb && after.work == s.work && after.cq == s.cq
  {
    hide Refilled, RefillPool, RefillPosted, RefillCount;
  }

  lemma PollStep(c: Setup, s: State, k: nat)
    requires c.Valid() && s.phase == Polling && Resourced(c, s)
    requires |s.irb| <= c.RingSize() && k <= |s.cq| && k <= PollLimit(c.RingSize() - |s.irb|, c.maxSges, c.queueSize)
    ensures Enabled(c, s, Poll(k))
    ensures var after := Apply(c, s, Poll(k));
            && after.work == s.cq[..k] && after.cq == s.cq[k..] && after.pending == s.pending - k
            && after.pool == s.pool && after.posted == s.posted && after.irb == s.irb
            && after.freeRequests == s.freeRequests
  {
    hide PollLimit, GoodWork;
  }

  lemma PendingBounds(c: Setup, s: State)
    requires Resourced(c, s)
    ensures 0 <= s.pending <= c.queueSize
  {}

  lemma RefillPossible(c: Setup, s: State) returns (got: nat)
    requires c.Valid() && Inv(c, s) && s.phase == Refilling
    ensures Enabled(c, s, Refill(got))
  {
    hide Inv, Refilled;
    NeverStuck(c, s, 0);
    got := 0;
    if s.pending < c.queueSize {
      MulMonotone(0, c.queueSize - s.pending, c.maxSges);
      got := Min((c.queueSize - s.pending) * c.maxSges, |s.pool|);
    }
  }

  lemma {:induction false} ProcessesOnly(n: nat)
    ensures forall e :: e in ProcessEvents(n) ==> e == Process || e == EndProcess
  {
    if n > 0 { ProcessesOnly(n - 1); }
  }

  lemma NothingInside(c: Setup, s: State)
    requires Inv(c, s) && s.irb == [] && s.work == [] && s.cq == []
    ensures s.delivered == Arrivals(s.arrived)
  {}

  /** Whenever the ring is empty, one more dispatch, without any move of the adapter and of the handler, can hand
      over all that has arrived. */
  lemma {:induction false} DispatchDeliversAll(c: Setup, s: State) returns (events: seq<Event>)
    requires c.Valid() && Inv(c, s) && s.phase == Polling && s.irb == []
    ensures IsRun(c, s, events) && forall e :: e in events ==> !e.Arrive? && !e.Return?
    ensures var last := Final(c, s, events);
            && last.arrived == s.arrived && last.delivered == Arrivals(s.arrived)
            && last.phase == Polling && last.irb == [] && last.work == [] && last.cq == []
  {
    hide Inv, Resourced, Conserved, InOrder, Stable, IsRun, Final, Arrivals, Entries, AllEntries, AllUnused, Items,
         EachItems, AllReadable, ProcessEvents, Refilled, RefillPool, RefillPosted, RefillCount, PollLimit;
    var n := |s.cq|;
    NoneOver(c, s);
    NeverStuck(c, s, 0);
    var s1 := Apply(c, s, Poll(n));
    NoSteps(c, s);
    ExtendRun(c, s, [], s, Poll(n));
    var got := RefillPossible(c, s1);
    var s2 := Apply(c, s1, Refill(got));
    ExtendRun(c, s, [] + [Poll(n)], s1, Refill(got));
    events := [] + [Poll(n)] + [Refill(got)];
    ExtendProcessed(c, s, events, s2);
    ProcessesOnly(n);
    var s3 := Processed(c, s2);
    events := events + ProcessEvents(|s2.work|);
    NeverStuck(c, s3, |s3.irb|);
    ExtendRun(c, s, events, s3, Deliver(|s3.irb|));
    events := events + [Deliver(|s3.irb|)];
    NothingInside(c, Apply(c, s3, Deliver(|s3.irb|)));
  }

  lemma NoneOver(c: Setup, s: State)
    requires Inv(c, s)
    ensures |s.cq| <= c.queueSize
  {}

  lemma NoSteps(c: Setup, s: State)
    requires c.Valid()
    ensures IsRun(c, s, []) && Final(c, s, []) == s
  {}

  /** A full poll fits: what it brings has room in the ring and in the two pools. */
  lemma RoomForAll(c: Setup, s: State)
    requires c.Valid() && Inv(c, s)
    ensures |s.irb| + |AllEntries(s.work, c.size)| <= c.RingSize()
    ensures |s.pool| + |AllUnused(s.work, c.size)| <= c.count
    ensures 0 <= s.freeRequests && s.freeRequests + |s.work| <= 2 * c.queueSize
    ensures c.queueSize - s.pending <= s.freeRequests
  {
    hide Conserved, InOrder, Stable, AllEntries, AllUnused, GoodWork;
    EntriesLength(c, s.work);
    UnusedLength(s.work, c.size);
    forall x: nat ensures Occurs(s.pool + WorkBuffers(s.work), x) <= Count(s, x) {
      OccursConcat(s.pool, WorkBuffers(s.work), x);
    }
    InPlaces(c, s, s.pool + WorkBuffers(s.work));
  }

  lemma {:induction false} EntriesLength(c: Setup, ws: seq<Work>)
    requires c.Valid() && forall w :: w in ws ==> GoodWork(c, w)
    ensures |AllEntries(ws, c.size)| <= |ws| * c.maxSges
  {
    if ws != [] {
      assert ws[0] in ws;
      EntriesLength(c, ws[1..]);
      Distribute(|ws| - 1, c.maxSges);
      assert |Entries(ws[0], c.size)| <= c.maxSges;
    }
  }

  lemma {:induction false} UnusedLength(ws: seq<Work>, size: nat)
    ensures |AllUnused(ws, size)| <= |WorkBuffers(ws)|
  {
    if ws != [] {
      UnusedLength(ws[1..], size);
    }
  }

  /** Buffers that are in one place each are no more than there are. */
  lemma InPlaces(c: Setup, s: State, some: seq<nat>)
    requires Conserved(c, s) && forall x: nat :: Occurs(some, x) <= Count(s, x)
    ensures |some| <= c.count
  {
    hide Occurs, Count;
    forall x: nat ensures Occurs(some, x) <= if x < c.count then 1 else 0 {
      assert Count(s, x) == if x < c.count then 1 else 0;
    }
    OnceIsDistinct(some);
    DistinctCount(some);
    forall x | x in Elements(some) ensures x in Below(c.count) { OccursIn(some, x); }
    SubsetCount(Elements(some), Below(c.count));
  }

  /** While the handler holds a buffer, the pool has room for it. */
  lemma RoomForReturn(c: Setup, s: State, i: nat)
    requires Conserved(c, s) && i < |s.held| && s.held[i].buffer.Some?
    ensures |s.pool| < c.count && EntryBuffers([s.held[i]]) == [s.held[i].buffer.value]
  {
    var back := EntryBuffers([s.held[i]]);
    assert [s.held[i]][1..] == [];
    forall x: nat ensures Occurs(s.pool + back, x) <= Count(s, x) {
      hide Occurs, EntryBuffers;
      OccursConcat(s.pool, back, x);
      ReturnMoves(s.held, i, x);
    }
    InPlaces(c, s, s.pool + back);
  }
}
