/** From the send buffer of one node to the receive handler of another: what the handlers see of a node, over whole
    runs, is what that node's packages posted, byte by byte and flow control value by flow control value. */
module EndToEnd {
  import opened Arithmetic
  import opened Finite
  import opened Streams
  import opened SendChunks
  import RecvBuffers
  import RecvRuns
  import RecvSafety
  import SendDispatchers

  type Message = RecvBuffers.Message

  /** A work package of a connection as the send dispatcher finds it: the send buffer, the free places of the send
      queue, the filled area and the flow control value. */
  datatype Package = Package(ring: seq<Byte>, slots: nat, back: U32, front: U32, fc: U8)
  {
    ghost predicate Valid(max: nat) {
      && |ring| + max <= WORD && 0 < max < WORD && |ring| < WORD
      && Positions(|ring|, max, back, front)
    }

    function Requests(max: U32): seq<Request>
      requires |ring| < WORD
    {
      Cut(|ring|, max, slots, back, front, fc)
    }

    /** The bytes a package posts: the filled area, as far as the free places allow. */
    ghost function Posted(max: nat): (bytes: seq<Byte>)
      requires Valid(max)
      ensures |bytes| == Min(if back <= front then front - back else front + |ring| - back, slots * max)
      ensures forall i :: 0 <= i < |bytes| ==>
                bytes[i] == ring[if back + i < |ring| then back + i else back + i - |ring|]
    {
      var all := Region(ring, back, front);
      all[..Min(|all|, slots * max)]
    }

    /** What the receiver is to see of it. */
    ghost function Items(node: nat, max: nat): seq<Item>
      requires Valid(max)
    {
      if slots == 0 then [] else Credit(node, fc) + Marked(node, Posted(max))
    }
  }

  /** The message of a request: the adapter gathers its pieces and sends the immediate data along. */
  function MessageOf(node: nat, ring: seq<Byte>, r: Request): Message
    requires InBounds(r.sges, |ring|)
  {
    RecvBuffers.Message(node, r.fc, Gather(ring, r.sges))
  }

  function Messages(node: nat, ring: seq<Byte>, rs: seq<Request>): seq<Message>
    requires AllInBounds(rs, |ring|)
  {
    if rs == [] then [] else [MessageOf(node, ring, rs[0])] + Messages(node, ring, rs[1..])
  }

  lemma {:induction false} MessagesCarry(node: nat, ring: seq<Byte>, rs: seq<Request>, fc: U8)
    requires AllInBounds(rs, |ring|) && CreditOnFirst(rs, fc)
    ensures RecvRuns.Arrivals(Messages(node, ring, rs))
         == (if rs == [] then [] else Credit(node, fc)) + Marked(node, Payload(ring, rs))
  {
    hide Gather;
    if rs != [] {
      var head := MessageOf(node, ring, rs[0]);
      assert CreditOnFirst(rs[1..], 0);
      MessagesCarry(node, ring, rs[1..], 0);
      assert Credit(node, 0) == [];
      MarkedConcat(node, head.payload, Payload(ring, rs[1..]));
      assert Messages(node, ring, rs)[1..] == Messages(node, ring, rs[1..]);
    }
  }

  /** A request fits into one receive work request and is never empty, so the receiver's check of empty messages
      cannot fire. */
  lemma MessagesFit(node: nat, p: Package, max: U32, r: Request)
    requires p.Valid(max) && r in p.Requests(max)
    ensures InBounds(r.sges, |p.ring|)
    ensures var m := MessageOf(node, p.ring, r); |m.payload| <= max && (m.payload != [] || m.fc > 0)
  {
    CutCarries(p.ring, max, p.slots, p.back, p.front, p.fc);
    if p.back == p.front && p.fc > 0 {
      assert r == Request([], p.fc);
    } else {
      CutShape(|p.ring|, max, p.slots, p.back, p.front, p.fc);
      GatherLength(p.ring, r.sges);
    }
  }

  /** The messages of a package carry its flow control value once and the bytes it posts, in order. */
  lemma PackageArrives(node: nat, p: Package, max: U32)
    requires p.Valid(max)
    ensures AllInBounds(p.Requests(max), |p.ring|)
    ensures RecvRuns.Arrivals(Messages(node, p.ring, p.Requests(max))) == p.Items(node, max)
  {
    hide Marked, Payload;
    var rs := p.Requests(max);
    CutCarries(p.ring, max, p.slots, p.back, p.front, p.fc);
    if p.back == p.front && p.fc > 0 {
      assert CreditOnFirst(rs, p.fc);
    } else {
      CutShape(|p.ring|, max, p.slots, p.back, p.front, p.fc);
    }
    MessagesCarry(node, p.ring, rs, p.fc);
    if p.slots == 0 { NothingPosted(node, p, max); }
    if rs == [] && p.slots > 0 { NothingToSend(node, p, max); }
  }

  lemma NothingPosted(node: nat, p: Package, max: U32)
    requires p.Valid(max) && p.slots == 0
    ensures Marked(node, Payload(p.ring, [])) == []
  {}

  lemma NothingToSend(node: nat, p: Package, max: U32)
    requires p.Valid(max) && p.slots > 0 && p.Requests(max) == []
    ensures Credit(node, p.fc) == []
  {}

  // From the arrays of the dispatcher to the wire

  /** What the adapter makes of one work request: it gathers the list it points to and sends the immediate data. */
  ghost predicate CanSend(w: SendDispatchers.SendWr, sges: seq<Sge>, size: nat) {
    w.sgList + w.numSge <= |sges| && InBounds(sges[w.sgList..w.sgList + w.numSge], size)
  }

  /** What it makes of several, by their places in the array. */
  ghost function OnWire(wrs: seq<SendDispatchers.SendWr>, sges: seq<Sge>, ring: seq<Byte>, links: seq<nat>)
    : seq<Message>
    requires forall i :: 0 <= i < |links| ==> links[i] < |wrs| && CanSend(wrs[links[i]], sges, |ring|)
  {
    if links == [] then []
    else
      var w := wrs[links[0]];
      assert CanSend(w, sges, |ring|);
      [RecvBuffers.Message(w.source, w.fc, Gather(ring, sges[w.sgList..w.sgList + w.numSge]))]
      + OnWire(wrs, sges, ring, links[1..])
  }

  /** Following the links of the placed requests, the adapter sends the messages of the requests. */
  lemma {:induction false} LinkedAreMessages(wrs: seq<SendDispatchers.SendWr>, sges: seq<Sge>, ring: seq<Byte>,
                                             ids: seq<nat>, source: nat, rs: seq<Request>, i: nat)
    requires SendDispatchers.PlacedSoFar(wrs, sges, ids, source, rs, |sges|) && AllInBounds(rs, |ring|) && i <= |rs|
    decreases |rs| - i
    ensures |rs| <= |wrs| && forall k :: i <= k < |rs| ==> CanSend(wrs[k], sges, |ring|)
    ensures OnWire(wrs, sges, ring, Indices(|rs|)[i..]) == Messages(source, ring, rs[i..])
  {
    hide Gather;
    if i < |rs| {
      var w := wrs[i];
      assert SendDispatchers.Written(wrs[..|rs|], sges)[i] == rs[i] && wrs[..|rs|][i] == w;
      LinkedAreMessages(wrs, sges, ring, ids, source, rs, i + 1);
      assert Indices(|rs|)[i..] == [i] + Indices(|rs|)[i + 1..];
      assert rs[i..] == [rs[i]] + rs[i + 1..];
      assert Messages(source, ring, rs[i..]) == [MessageOf(source, ring, rs[i])] + Messages(source, ring, rs[i + 1..]);
    }
  }

  lemma NoMessages(node: nat, ring: seq<Byte>)
    ensures Messages(node, ring, []) == []
  {}

  /** The dispatcher sends a package of a connection whose send buffer holds `ring`: what the adapter finds by
      following the links in the dispatcher's arrays carries exactly the items of the package. */
  method SendPackage(d: SendDispatchers.SendDispatcher, ghost ring: seq<Byte>, size: U32, source: nat,
                     wp: SendDispatchers.NextWorkPackage)
    returns (posted: bool, ghost wire: seq<Message>)
    requires d.SendValid() && d.JobOf(size, source, wp).Valid() && size == |ring|
    modifies d`contexts, d`prevWorkPackageResults, d`sendQueuePending, d`completionsPending, d`inFlight,
             d`postedSoFar, d.workRequestCtxPool`front, d.workRequestCtxPool`nonReturned, d.workRequestCtxPool`free,
             d.workRequestCtxPool.queue, d.sendWrs, d.sgeLists
    ensures d.SendValid() && (!posted ==> wire == [])
    ensures posted ==>
              var links := SendDispatchers.Chain(d.sendWrs[..], 0);
              && (forall i :: 0 <= i < |links| ==>
                   links[i] < d.sendWrs.Length && CanSend(d.sendWrs[links[i]], d.sgeLists[..], |ring|))
              && wire == OnWire(d.sendWrs[..], d.sgeLists[..], ring, links)
    ensures old(d.JobOf(size, source, wp).Valid())
    ensures wp.nodeId < old(|d.sendQueuePending|) && old(d.sendQueuePending[wp.nodeId]) <= d.sqSize
    ensures var p := Package(ring, d.sqSize - old(d.sendQueuePending[wp.nodeId]), wp.posBackRel, wp.posFrontRel,
                             wp.flowControlData);
            p.Valid(d.maxRecvBufferSize) && RecvRuns.Arrivals(wire) == p.Items(source, d.maxRecvBufferSize)
  {
    hide SendDispatchers.PlacedSoFar, SendDispatchers.Booked, SendDispatchers.Chain, OnWire, Messages,
         RecvRuns.Arrivals, CanSend, Package.Items, SendDispatchers.SendDispatcher.SendValid, Cut;
    ghost var p := Package(ring, d.JobOf(size, source, wp).Slots(), wp.posBackRel, wp.posFrontRel,
                           wp.flowControlData);
    ghost var rs;
    ghost var ids := d.workRequestCtxPool.free;
    posted, rs := d.SendData(size, source, wp);
    assert rs == p.Requests(d.maxRecvBufferSize);
    PackageArrives(source, p, d.maxRecvBufferSize);
    wire := [];
    NoMessages(source, ring);
    if posted {
      LinkedAreMessages(d.sendWrs[..], d.sgeLists[..], ring, ids, source, rs, 0);
      assert Indices(|rs|)[0..] == Indices(|rs|) && rs[0..] == rs;
      forall i | 0 <= i < |rs| ensures CanSend(d.sendWrs[..][Indices(|rs|)[i]], d.sgeLists[..], |ring|) {
        assert Indices(|rs|)[i] == i;
      }
      wire := OnWire(d.sendWrs[..], d.sgeLists[..], ring, Indices(|rs|));
    }
  }

  /** What the sender reports about a package is what the receiver gets to see of it: the reported bytes are those
      posted and the rest, and the reported flow control value is seen, or reported as not posted. */
  lemma ReportIsTrue(node: nat, p: Package, max: U32, wp: SendDispatchers.NextWorkPackage)
    requires p.Valid(max)
    requires wp.posBackRel == p.back && wp.posFrontRel == p.front && wp.flowControlData == p.fc
    ensures var all := |Region(p.ring, p.back, p.front)|;
            && TotalLength(p.Requests(max)) <= all < WORD
            && var report := SendDispatchers.ResultsOf(wp, all, p.Requests(max));
               && report.numBytesPosted == |p.Posted(max)| && report.numBytesPosted + report.numBytesNotPosted == all
               && report.fcDataPosted + report.fcDataNotPosted == p.fc
               && p.Items(node, max) == Credit(node, report.fcDataPosted) + Marked(node, p.Posted(max))
  {
    CutCarries(p.ring, max, p.slots, p.back, p.front, p.fc);
    if p.slots == 0 {
      NothingPosted(node, p, max);
      assert p.slots * max == 0;
    }
    if p.Requests(max) == [] && p.slots > 0 { NothingToSend(node, p, max); }
  }

  ghost predicate AllValid(ps: seq<Package>, max: nat) {
    forall p :: p in ps ==> p.Valid(max)
  }

  /** Everything a node puts on the wire, package after package. */
  ghost function Wire(node: nat, ps: seq<Package>, max: U32): seq<Message>
    requires AllValid(ps, max)
  {
    if ps == [] then []
    else
      assert ps[0] in ps;
      PackageArrives(node, ps[0], max);
      Messages(node, ps[0].ring, ps[0].Requests(max)) + Wire(node, ps[1..], max)
  }

  /** Everything the packages of a node are about. */
  ghost function Sent(node: nat, ps: seq<Package>, max: U32): seq<Item>
    requires AllValid(ps, max)
  {
    if ps == [] then []
    else
      assert ps[0] in ps;
      ps[0].Items(node, max) + Sent(node, ps[1..], max)
  }

  /** The bytes the packages of a node post, and their flow control values. */
  ghost function PostedBytes(ps: seq<Package>, max: U32): seq<Byte>
    requires AllValid(ps, max)
  {
    if ps == [] then []
    else
      assert ps[0] in ps;
      ps[0].Posted(max) + PostedBytes(ps[1..], max)
  }

  function PostedCredits(ps: seq<Package>): seq<nat> {
    if ps == [] then []
    else (if ps[0].slots > 0 && ps[0].fc > 0 then [ps[0].fc as nat] else []) + PostedCredits(ps[1..])
  }

  lemma ItemsCarry(node: nat, p: Package, max: U32)
    requires p.Valid(max)
    ensures DataIn(p.Items(node, max)) == p.Posted(max)
    ensures CreditsIn(p.Items(node, max)) == if p.slots > 0 && p.fc > 0 then [p.fc as nat] else []
  {
    if p.slots > 0 { InBoth(node, p.fc, p.Posted(max)); }
  }

  lemma {:induction false} SentCarries(node: nat, ps: seq<Package>, max: U32)
    requires AllValid(ps, max)
    ensures DataIn(Sent(node, ps, max)) == PostedBytes(ps, max)
    ensures CreditsIn(Sent(node, ps, max)) == PostedCredits(ps)
  {
    if ps != [] {
      hide Package.Items, Package.Posted;
      assert ps[0] in ps;
      ItemsCarry(node, ps[0], max);
      SentCarries(node, ps[1..], max);
      InConcat(ps[0].Items(node, max), Sent(node, ps[1..], max));
    }
  }

  lemma {:induction false} WireCarries(node: nat, ps: seq<Package>, max: U32)
    requires AllValid(ps, max)
    ensures RecvRuns.Arrivals(Wire(node, ps, max)) == Sent(node, ps, max)
  {
    if ps != [] {
      assert ps[0] in ps;
      PackageArrives(node, ps[0], max);
      WireCarries(node, ps[1..], max);
      ArrivalsConcat(Messages(node, ps[0].ring, ps[0].Requests(max)), Wire(node, ps[1..], max));
    }
  }

  lemma {:induction false} ArrivalsConcat(a: seq<Message>, b: seq<Message>)
    ensures RecvRuns.Arrivals(a + b) == RecvRuns.Arrivals(a) + RecvRuns.Arrivals(b)
  {
    hide RecvBuffers.MessageItems;
    if a == [] {
      assert a + b == b;
    } else {
      ConcatTail(a, b);
      ArrivalsConcat(a[1..], b);
      Associative(RecvBuffers.MessageItems(a[0]), RecvRuns.Arrivals(a[1..]), RecvRuns.Arrivals(b));
    }
  }

  /** The messages of one node, in the order they arrive. */
  function MessagesFrom(node: nat, ms: seq<Message>): seq<Message> {
    if ms == [] then []
    else (if ms[0].source == node then [ms[0]] else []) + MessagesFrom(node, ms[1..])
  }

  lemma {:induction false} ArrivalsFrom(node: nat, ms: seq<Message>)
    ensures From(node, RecvRuns.Arrivals(ms)) == RecvRuns.Arrivals(MessagesFrom(node, ms))
  {
    hide RecvBuffers.MessageItems;
    if ms != [] {
      var head := RecvBuffers.MessageItems(ms[0]);
      FromConcat(node, head, RecvRuns.Arrivals(ms[1..]));
      OneSource(node, ms[0]);
      ArrivalsFrom(node, ms[1..]);
      ArrivalsConcat(if ms[0].source == node then [ms[0]] else [], MessagesFrom(node, ms[1..]));
      assert [ms[0]][1..] == [];
      assert RecvRuns.Arrivals([ms[0]]) == head;
    }
  }

  lemma OneSource(node: nat, m: Message)
    ensures From(node, RecvBuffers.MessageItems(m)) == if m.source == node then RecvBuffers.MessageItems(m) else []
  {
    FromSingle(node, m.source, RecvBuffers.MessageItems(m));
  }

  lemma FromPrefix(node: nat, a: seq<Item>, b: seq<Item>)
    requires a <= b
    ensures From(node, a) <= From(node, b)
  {
    assert b == a + b[|a|..];
    FromConcat(node, a, b[|a|..]);
  }

  lemma ArrivalsPrefix(a: seq<Message>, b: seq<Message>)
    requires a <= b
    ensures RecvRuns.Arrivals(a) <= RecvRuns.Arrivals(b)
  {
    assert b == a + b[|a|..];
    ArrivalsConcat(a, b[|a|..]);
  }

  /** In every run, if what arrived from a node is a part of what it put on the wire, in order, then what the
      handler got from it is a prefix of what its packages posted; once all of it has arrived and nothing is left
      inside, it is exactly that. */
  lemma {:induction false} EndToEnd(c: RecvRuns.Setup, s: RecvRuns.State, events: seq<RecvRuns.Event>,
                                    last: RecvRuns.State, node: nat, ps: seq<Package>, max: U32)
    requires c.Valid() && RecvRuns.Init(c, s) && RecvRuns.IsRun(c, s, events) && last == RecvRuns.Final(c, s, events)
    requires max == c.maxSges * c.size && AllValid(ps, max)
    requires MessagesFrom(node, last.arrived) <= Wire(node, ps, max)
    ensures From(node, last.delivered) <= Sent(node, ps, max)
    ensures (last.irb == [] && last.work == [] && last.cq == []
             && MessagesFrom(node, last.arrived) == Wire(node, ps, max))
            ==> From(node, last.delivered) == Sent(node, ps, max)
    ensures DataIn(From(node, last.delivered)) <= PostedBytes(ps, max)
    ensures CreditsIn(From(node, last.delivered)) <= PostedCredits(ps)
    ensures (last.irb == [] && last.work == [] && last.cq == []
             && MessagesFrom(node, last.arrived) == Wire(node, ps, max))
            ==> DataIn(From(node, last.delivered)) == PostedBytes(ps, max)
                && CreditsIn(From(node, last.delivered)) == PostedCredits(ps)
  {
    RecvSafety.HandedOver(c, s, events);
    FromPrefix(node, last.delivered, RecvRuns.Arrivals(last.arrived));
    ArrivalsFrom(node, last.arrived);
    ArrivalsPrefix(MessagesFrom(node, last.arrived), Wire(node, ps, max));
    WireCarries(node, ps, max);
    SentCarries(node, ps, max);
    InPrefix(From(node, last.delivered), Sent(node, ps, max));
  }
}
