/** The exchange by which two nodes connect their queue pairs over a network that may lose, repeat and reorder. */
module Handshake {
  import opened Rings

  /** The two exchange flags: "connected to remote" and "remote connected". */
  datatype Flags = Flags(connectedToRemote: bool, remoteConnected: bool)
  {
    predicate Within(other: Flags) {
      (connectedToRemote ==> other.connectedToRemote) && (remoteConnected ==> other.remoteConnected)
    }

    function Or(other: Flags): Flags {
      Flags(connectedToRemote || other.connectedToRemote, remoteConnected || other.remoteConnected)
    }
  }

  const NONE := Flags(false, false)
  const COMPLETED := Flags(true, true)

  datatype Phase = NotAvailable | InCreation | Created | Connected

  /** What a node sends about itself: its queue pair data, and the identity of its connection manager, which is
      another one after a restart. */
  datatype Endpoint = Endpoint(qp: nat, ident: nat)

  /** What a node keeps about a connection: its state, its flags, the last flags it heard of, the id of the
      connection object if there is one, and the endpoint it has connected to. */
  datatype Peer = Peer(phase: Phase, flags: Flags, remoteFlags: Flags, connection: Option<nat>,
                       remote: Option<Endpoint>)
  {
    predicate ExchangeComplete() { flags == COMPLETED && remoteFlags == COMPLETED }

    predicate Allocated() { connection.Some? }
  }

  /** The exchanged header with the endpoint of its sender. */
  datatype Header = Header(flags: Flags, flagsRemote: Flags, endpoint: Endpoint)

  /** What handling a header ends with: nothing, an open connection, the discovery that the other node has been
      restarted, on which the connection is closed and created again, or a reply. */
  datatype Outcome = Silent | Opened | Restart | Reply(header: Header)

  const FRESH := Peer(NotAvailable, NONE, NONE, None, None)

  function Allocate(p: Peer, id: nat): Peer {
    if p.Allocated() then p else p.(phase := Created, connection := Some(id))
  }

  /** Handling a header, with the connection allocated: the new state, and what is to be done. */
  function Receive(p: Peer, h: Header, own: Endpoint): (Peer, Outcome)
    requires p.Allocated()
  {
    var p1 := p.(remoteFlags := h.flags);
    var p2 := if p1.flags.connectedToRemote then p1
              else p1.(remote := Some(h.endpoint), flags := p1.flags.Or(Flags(true, false)));
    var p3 := if !p2.flags.remoteConnected && h.flags.connectedToRemote
              then p2.(flags := p2.flags.Or(Flags(false, true)))
              else p2;
    if p3.ExchangeComplete() && p3.phase == Created
    then (p3.(phase := Connected), if Restarted(p3, h) then Restart else Opened)
    else if !p3.ExchangeComplete() || p3.flags != h.flagsRemote then (p3, Reply(HeaderOf(p3, own)))
    else (p3, Silent)
  }

  /** The header comes from another connection manager than the one that was connected to. */
  predicate Restarted(p: Peer, h: Header) {
    p.remote.Some? && p.remote.value.ident != h.endpoint.ident
  }

  function HeaderOf(p: Peer, own: Endpoint): Header {
    Header(p.flags, p.remoteFlags, own)
  }

  // Two nodes

  datatype Side = A | B
  {
    function Other(): Side { if this == A then B else A }
  }

  /** A message on the wire to `target`. */
  datatype Packet = Packet(target: Side, header: Header)

  datatype System = System(a: Peer, b: Peer, endA: Endpoint, endB: Endpoint)
  {
    function At(side: Side): Peer { if side == A then a else b }

    function Own(side: Side): Endpoint { if side == A then endA else endB }

    function With(side: Side, p: Peer): System { if side == A then this.(a := p) else this.(b := p) }
  }

  /** A node starts or repeats the exchange: it allocates its connection if it has none, and sends its flags. */
  function Start(s: System, side: Side, id: nat): (System, Packet) {
    var p := Allocate(s.At(side), id);
    (s.With(side, p), Packet(side.Other(), HeaderOf(p, s.Own(side))))
  }

  /** A node handles a packet. */
  function Deliver(s: System, packet: Packet, id: nat): (System, Option<Packet>) {
    var side := packet.target;
    var (p, outcome) := Receive(Allocate(s.At(side), id), packet.header, s.Own(side));
    (s.With(side, p), if outcome.Reply? then Some(Packet(side.Other(), outcome.header)) else None)
  }

  // Safety: the network keeps every packet ever sent and delivers whatever it likes

  datatype Network = Network(system: System, sent: set<Packet>)

  datatype Event = StartAt(side: Side, id: nat) | DeliverOne(packet: Packet, id: nat)

  predicate Enabled(n: Network, e: Event) {
    e.DeliverOne? ==> e.packet in n.sent
  }

  function Apply(n: Network, e: Event): Network
    requires Enabled(n, e)
  {
    match e
    case StartAt(side, id) =>
      var (s, p) := Start(n.system, side, id);
      Network(s, n.sent + {p})
    case DeliverOne(packet, id) =>
      var (s, reply) := Deliver(n.system, packet, id);
      Network(s, if reply.Some? then n.sent + {reply.value} else n.sent)
  }

  /** A header from `side` says no more than is true of `side` now, and of the other about whom it reports. */
  ghost predicate Truthful(s: System, target: Side, h: Header) {
    var sender := target.Other();
    && h.endpoint == s.Own(sender) && h.flags.Within(s.At(sender).flags) && h.flagsRemote.Within(s.At(target).flags)
    && (h.flags.remoteConnected ==> h.flags.connectedToRemote)
  }

  ghost predicate Sound(s: System, side: Side) {
    var p, q := s.At(side), s.At(side.Other());
    && p.remoteFlags.Within(q.flags)
    && (p.phase == Created || p.phase == Connected <==> p.Allocated())
    && (p.flags.connectedToRemote ==> p.Allocated() && p.remote == Some(s.Own(side.Other())))
    && (p.flags.remoteConnected ==> p.flags.connectedToRemote && q.flags.connectedToRemote)
    && (p.phase == Connected ==> p.flags == COMPLETED && q.flags == COMPLETED)
    && (p.ExchangeComplete() ==> p.phase == Connected)
    && (!p.Allocated() ==> p.flags == NONE && p.remoteFlags == NONE)
  }

  ghost predicate Inv(n: Network) {
    && Sound(n.system, A) && Sound(n.system, B)
    && forall packet :: packet in n.sent ==> Truthful(n.system, packet.target, packet.header)
  }

  lemma StartSound(s: System, side: Side, id: nat, target: Side, h: Header)
    requires Sound(s, A) && Sound(s, B)
    ensures var (after, packet) := Start(s, side, id);
            && Sound(after, A) && Sound(after, B)
            && Truthful(after, packet.target, packet.header)
            && (Truthful(s, target, h) ==> Truthful(after, target, h))
  {}

  lemma DeliverKeeps(s: System, packet: Packet, id: nat, target: Side, h: Header)
    requires Sound(s, A) && Sound(s, B) && Truthful(s, packet.target, packet.header) && Truthful(s, target, h)
    ensures Truthful(Deliver(s, packet, id).0, target, h)
  {}

  lemma DeliverSound(s: System, packet: Packet, id: nat)
    requires Sound(s, A) && Sound(s, B) && Truthful(s, packet.target, packet.header)
    ensures var (after, reply) := Deliver(s, packet, id);
            && Sound(after, A) && Sound(after, B)
            && (reply.Some? ==> Truthful(after, reply.value.target, reply.value.header))
  {}

  /** Between two nodes that are not restarted nobody is taken to be. */
  lemma NoRestart(s: System, packet: Packet, id: nat)
    requires Sound(s, A) && Sound(s, B) && Truthful(s, packet.target, packet.header)
    ensures Receive(Allocate(s.At(packet.target), id), packet.header, s.Own(packet.target)).1 != Restart
  {}

  lemma StepInv(n: Network, e: Event)
    requires Inv(n) && Enabled(n, e)
    ensures Inv(Apply(n, e))
  {
    hide Sound, Truthful, Deliver, Start;
    var after := Apply(n, e);
    forall packet | packet in after.sent
      ensures Sound(after.system, A) && Sound(after.system, B)
      ensures Truthful(after.system, packet.target, packet.header)
    {
      StepSound(n, e, packet);
    }
    StepSound(n, e, Packet(A, Header(NONE, NONE, Endpoint(0, 0))));
  }

  lemma StepSound(n: Network, e: Event, packet: Packet)
    requires Inv(n) && Enabled(n, e)
    ensures var after := Apply(n, e);
            && Sound(after.system, A) && Sound(after.system, B)
            && (packet in after.sent ==> Truthful(after.system, packet.target, packet.header))
  {
    hide Sound, Truthful, Deliver, Start;
    match e
    case StartAt(side, id) => StartSound(n.system, side, id, packet.target, packet.header);
    case DeliverOne(delivered, id) =>
      DeliverSound(n.system, delivered, id);
      if packet in n.sent { DeliverKeeps(n.system, delivered, id, packet.target, packet.header); }
  }

  ghost predicate IsRun(n: Network, events: seq<Event>)
    decreases |events|
  {
    events == [] || (Enabled(n, events[0]) && IsRun(Apply(n, events[0]), events[1..]))
  }

  ghost function Final(n: Network, events: seq<Event>): Network
    requires IsRun(n, events)
    decreases |events|
  {
    if events == [] then n else Final(Apply(n, events[0]), events[1..])
  }

  lemma {:induction false} EveryRun(n: Network, events: seq<Event>)
    requires Inv(n) && IsRun(n, events)
    decreases |events|
    ensures Inv(Final(n, events))
  {
    hide Inv, Enabled, Apply;
    if events != [] {
      StepInv(n, events[0]);
      EveryRun(Apply(n, events[0]), events[1..]);
    }
  }

  /** Whatever is lost, repeated or reordered: a node that is connected has connected its queue pair to the data of
      the other, the other has done the same with its data, and the other's own flags are complete. */
  lemma {:induction false} ConnectedIsMutual(endA: Endpoint, endB: Endpoint, events: seq<Event>, n: Network, side: Side)
    requires IsRun(Network(System(FRESH, FRESH, endA, endB), {}), events)
    requires n == Final(Network(System(FRESH, FRESH, endA, endB), {}), events)
    requires n.system.At(side).phase == Connected
    ensures n.system.At(side).remote == Some(n.system.Own(side.Other()))
    ensures n.system.At(side.Other()).remote == Some(n.system.Own(side))
    ensures n.system.At(side.Other()).flags == COMPLETED
  {
    EveryRun(Network(System(FRESH, FRESH, endA, endB), {}), events);
  }

  // Progress: packets are delivered or lost once

  function MissingBits(f: Flags): nat {
    (if f.connectedToRemote then 0 else 1) + (if f.remoteConnected then 0 else 1)
  }

  function Weight(h: Header): (w: nat)
    ensures w > 0
  {
    if !h.flags.connectedToRemote then 4
    else if !h.flags.remoteConnected then 3
    else if h.flagsRemote != COMPLETED then 2
    else 1
  }

  function WeightOfAll(packets: seq<Packet>): nat {
    if packets == [] then 0 else Weight(packets[0].header) + WeightOfAll(packets[1..])
  }

  /** An upper bound on the number of deliveries to come. */
  function Measure(s: System, flight: seq<Packet>): nat {
    4 * (MissingBits(s.a.flags) + MissingBits(s.b.flags)) + WeightOfAll(flight)
  }

  /** A reply weighs less than what it answers, unless flags are won. */
  lemma ReplyIsLighter(s: System, packet: Packet, id: nat)
    requires Sound(s, A) && Sound(s, B)
    ensures var (after, reply) := Deliver(s, packet, id);
            Measure(after, if reply.Some? then [reply.value] else []) < Measure(s, [packet])
  {
    var (after, reply) := Deliver(s, packet, id);
    assert [packet][1..] == [];
    if reply.Some? { assert [reply.value][1..] == []; }
  }

  lemma {:induction false} WeightSplits(a: seq<Packet>, b: seq<Packet>)
    ensures WeightOfAll(a + b) == WeightOfAll(a) + WeightOfAll(b)
  {
    if a == [] {
      assert a + b == b;
    } else {
      assert (a + b)[1..] == a[1..] + b;
      WeightSplits(a[1..], b);
    }
  }

  /** Without repetition the exchange dies out: every delivery, of any packet in flight, and every loss lowers the
      measure, whatever else is in flight. */
  lemma DiesOut(s: System, before: seq<Packet>, packet: Packet, behind: seq<Packet>, id: nat)
    requires Sound(s, A) && Sound(s, B)
    ensures var (after, reply) := Deliver(s, packet, id);
            Measure(after, before + behind + if reply.Some? then [reply.value] else [])
            < Measure(s, before + [packet] + behind)
    ensures Measure(s, before + behind) < Measure(s, before + [packet] + behind)
  {
    var (after, reply) := Deliver(s, packet, id);
    var more := if reply.Some? then [reply.value] else [];
    ReplyIsLighter(s, packet, id);
    WeightSplits(before + behind, more);
    WeightSplits(before, behind);
    WeightSplits(before + [packet], behind);
    WeightSplits(before, [packet]);
    assert [packet][1..] == [];
    if reply.Some? { assert more[1..] == []; }
    assert WeightOfAll([]) == 0;
  }

  /** The two nodes and the packets in flight, each of which is delivered or lost once, in any order. */
  datatype Wire = Wire(system: System, flight: seq<Packet>)

  datatype Move = StartOne(side: Side, newId: nat) | DeliverAt(k: nat, id: nat) | LoseAt(k: nat)

  predicate CanMove(w: Wire, m: Move) {
    m.StartOne? || m.k < |w.flight|
  }

  function Moved(w: Wire, m: Move): Wire
    requires CanMove(w, m)
  {
    match m
    case StartOne(side, id) =>
      var (s, p) := Start(w.system, side, id);
      Wire(s, w.flight + [p])
    case DeliverAt(k, id) =>
      var (s, reply) := Deliver(w.system, w.flight[k], id);
      Wire(s, w.flight[..k] + w.flight[k + 1..] + if reply.Some? then [reply.value] else [])
    case LoseAt(k) => w.(flight := w.flight[..k] + w.flight[k + 1..])
  }

  ghost predicate AllTruthful(s: System, packets: seq<Packet>) {
    forall i :: 0 <= i < |packets| ==> Truthful(s, packets[i].target, packets[i].header)
  }

  ghost predicate WireSound(w: Wire) {
    Sound(w.system, A) && Sound(w.system, B) && AllTruthful(w.system, w.flight)
  }

  lemma StillTruthful(s: System, after: System, packets: seq<Packet>, more: seq<Packet>)
    requires AllTruthful(s, packets) && AllTruthful(after, more)
    requires forall i :: 0 <= i < |packets| ==> Truthful(after, packets[i].target, packets[i].header)
    ensures AllTruthful(after, packets + more)
  {
    hide Truthful;
  }

  lemma MoveSound(w: Wire, m: Move)
    requires WireSound(w) && CanMove(w, m)
    ensures WireSound(Moved(w, m))
  {
    hide Sound, Truthful, Start, Deliver;
    match m
    case StartOne(side, id) =>
      var (s, p) := Start(w.system, side, id);
      StartSound(w.system, side, id, p.target, p.header);
      forall i | 0 <= i < |w.flight| ensures Truthful(s, w.flight[i].target, w.flight[i].header) {
        StartSound(w.system, side, id, w.flight[i].target, w.flight[i].header);
      }
      StillTruthful(w.system, s, w.flight, [p]);
    case DeliverAt(k, id) =>
      var (s, reply) := Deliver(w.system, w.flight[k], id);
      var others := w.flight[..k] + w.flight[k + 1..];
      DeliverSound(w.system, w.flight[k], id);
      forall i | 0 <= i < |others| ensures Truthful(s, others[i].target, others[i].header) {
        DeliverKeeps(w.system, w.flight[k], id, others[i].target, others[i].header);
      }
      StillTruthful(w.system, s, others, if reply.Some? then [reply.value] else []);
    case LoseAt(k) =>
  }

  function Bound(w: Wire): nat { Measure(w.system, w.flight) }

  /** Starting an exchange costs at most four more deliveries; every delivery and every loss saves one. */
  lemma MoveBound(w: Wire, m: Move)
    requires WireSound(w) && CanMove(w, m)
    ensures Bound(Moved(w, m)) + (if m.StartOne? then 0 else 1) <= Bound(w) + if m.StartOne? then 4 else 0
  {
    if m.StartOne? {
      var (s, p) := Start(w.system, m.side, m.newId);
      WeightSplits(w.flight, [p]);
      assert [p][1..] == [];
    } else {
      hide Sound, Truthful, Deliver;
      assert w.flight == w.flight[..m.k] + [w.flight[m.k]] + w.flight[m.k + 1..];
      DiesOut(w.system, w.flight[..m.k], w.flight[m.k], w.flight[m.k + 1..], if m.DeliverAt? then m.id else 0);
    }
  }

  ghost predicate IsExchange(w: Wire, moves: seq<Move>)
    decreases |moves|
  {
    moves == [] || (CanMove(w, moves[0]) && IsExchange(Moved(w, moves[0]), moves[1..]))
  }

  ghost function LastWire(w: Wire, moves: seq<Move>): Wire
    requires IsExchange(w, moves)
    decreases |moves|
  {
    if moves == [] then w else LastWire(Moved(w, moves[0]), moves[1..])
  }

  function Starts(moves: seq<Move>): (n: nat)
    ensures n <= |moves|
  {
    if moves == [] then 0 else (if moves[0].StartOne? then 1 else 0) + Starts(moves[1..])
  }

  /** Every exchange dies out, in whatever order packets are delivered or lost: the number of deliveries and losses
      is at most the measure of its beginning and four for every start and retransmission. On the way nothing
      false is ever stored or said. */
  lemma {:induction false} EveryExchangeEnds(w: Wire, moves: seq<Move>)
    requires WireSound(w) && IsExchange(w, moves)
    decreases |moves|
    ensures WireSound(LastWire(w, moves))
    ensures |moves| - Starts(moves) + Bound(LastWire(w, moves)) <= Bound(w) + 4 * Starts(moves)
  {
    hide WireSound, CanMove, Moved, Bound;
    if moves != [] {
      MoveSound(w, moves[0]);
      MoveBound(w, moves[0]);
      EveryExchangeEnds(Moved(w, moves[0]), moves[1..]);
    }
  }

  lemma {:induction false} StartsSplit(a: seq<Move>, b: seq<Move>)
    ensures Starts(a + b) == Starts(a) + Starts(b)
  {
    if a == [] {
      assert a + b == b;
    } else {
      assert (a + b)[1..] == a[1..] + b;
      StartsSplit(a[1..], b);
    }
  }

  lemma {:induction false} StartsWithin(moves: seq<Move>, starts: set<nat>)
    requires forall i: nat :: i < |moves| && moves[i].StartOne? ==> i in starts
    ensures Starts(moves) <= |starts|
  {
    if moves != [] {
      var last := |moves| - 1;
      assert moves == moves[..last] + [moves[last]] && [moves[last]][1..] == [];
      StartsSplit(moves[..last], [moves[last]]);
      StartsWithin(moves[..last], starts - {last});
    }
  }

  lemma {:induction false} WeightBound(packets: seq<Packet>)
    ensures WeightOfAll(packets) <= 4 * |packets|
  {
    if packets != [] { WeightBound(packets[1..]); }
  }

  /** The length of an exchange: sixteen deliveries and losses for the two nodes, four for every packet already in
      flight and for every start, wherever in the exchange the starts are. */
  lemma {:induction false} ExchangeLength(w: Wire, moves: seq<Move>, starts: set<nat>)
    requires WireSound(w) && IsExchange(w, moves)
    requires forall i: nat :: i in starts <==> i < |moves| && moves[i].StartOne?
    ensures |moves| <= 16 + 4 * |w.flight| + 5 * |starts|
  {
    EveryExchangeEnds(w, moves);
    StartsWithin(moves, starts);
    WeightBound(w.flight);
  }

  /** A packet and all the replies it leads to, none of them lost. */
  function Drain(s: System, packet: Packet): (last: System)
    requires Sound(s, A) && Sound(s, B) && s.a.Allocated() && s.b.Allocated()
    requires Truthful(s, packet.target, packet.header)
    ensures Sound(last, A) && Sound(last, B) && last.a.Allocated() && last.b.Allocated()
    decreases Measure(s, [packet])
  {
    ReplyIsLighter(s, packet, 0);
    DeliverSound(s, packet, 0);
    var (after, reply) := Deliver(s, packet, 0);
    if reply.Some? then Drain(after, reply.value) else after
  }

  /** A retransmission by `side`, without loss. */
  function Retransmit(s: System, side: Side): (last: System)
    requires Sound(s, A) && Sound(s, B) && s.a.Allocated() && s.b.Allocated()
    ensures Sound(last, A) && Sound(last, B) && last.a.Allocated() && last.b.Allocated()
  {
    Drain(s, Packet(side.Other(), HeaderOf(s.At(side), s.Own(side))))
  }

  predicate BothConnected(s: System) { s.a.phase == Connected && s.b.phase == Connected }

  /** One side is connected and complete; the other is complete itself and waits to hear that its peer is. */
  predicate OneShort(s: System, waiting: Side) {
    var p, q := s.At(waiting), s.At(waiting.Other());
    && p.flags == COMPLETED && p.remoteFlags != COMPLETED && p.phase == Created
    && q.ExchangeComplete() && q.phase == Connected
  }

  /** The end of an exchange that starts with a packet about a side whose own flags are complete. */
  lemma LastPackets(s: System, packet: Packet)
    requires Sound(s, A) && Sound(s, B) && s.a.Allocated() && s.b.Allocated()
    requires Truthful(s, packet.target, packet.header) && packet.header.flags == COMPLETED
    requires packet.header.flagsRemote == s.At(packet.target.Other()).remoteFlags
    ensures var after := Drain(s, packet); BothConnected(after) || OneShort(after, packet.target.Other())
  {
    var (s1, r1) := Deliver(s, packet, 0);
    DeliverSound(s, packet, 0);
    if r1.Some? {
      var (s2, r2) := Deliver(s1, r1.value, 0);
      assert r2.None?;
    }
  }

  /** After one retransmission both sides are connected, or one is short of one packet. */
  lemma FirstRetransmission(s: System, side: Side)
    requires Sound(s, A) && Sound(s, B) && s.a.Allocated() && s.b.Allocated()
    requires !s.At(side).ExchangeComplete()
    ensures var after := Retransmit(s, side); BothConnected(after) || OneShort(after, A) || OneShort(after, B)
  {
    var p0 := Packet(side.Other(), HeaderOf(s.At(side), s.Own(side)));
    FollowUp(s, p0);
  }

  lemma FollowUp(s: System, packet: Packet)
    requires Sound(s, A) && Sound(s, B) && s.a.Allocated() && s.b.Allocated()
    requires Truthful(s, packet.target, packet.header)
    requires packet.header == HeaderOf(s.At(packet.target.Other()), s.Own(packet.target.Other()))
    decreases Measure(s, [packet])
    ensures var after := Drain(s, packet); BothConnected(after) || OneShort(after, A) || OneShort(after, B)
  {
    if packet.header.flags == COMPLETED {
      LastPackets(s, packet);
    } else {
      ReplyIsLighter(s, packet, 0);
      DeliverSound(s, packet, 0);
      var (s1, r1) := Deliver(s, packet, 0);
      assert r1.Some?;
      FollowUp(s1, r1.value);
    }
  }

  lemma SecondRetransmission(s: System, side: Side)
    requires Sound(s, A) && Sound(s, B) && s.a.Allocated() && s.b.Allocated()
    requires OneShort(s, A) || OneShort(s, B)
    requires !s.At(side).ExchangeComplete()
    ensures OneShort(s, side) && BothConnected(Retransmit(s, side))
  {
    var p0 := Packet(side.Other(), HeaderOf(s.At(side), s.Own(side)));
    LastPackets(s, p0);
    var (s1, r1) := Deliver(s, p0, 0);
    assert r1.Some?;
  }

  /** From every reachable state in which both sides are allocated and nothing is in flight, two retransmissions
      without loss, each by a side that is not complete, connect both sides; after the first there is such a side
      unless both are connected already. */
  lemma TwoRetransmissions(s: System, first: Side, second: Side)
    requires Sound(s, A) && Sound(s, B) && s.a.Allocated() && s.b.Allocated()
    requires !s.At(first).ExchangeComplete()
    ensures var s1 := Retransmit(s, first);
            && Sound(s1, A) && Sound(s1, B) && s1.a.Allocated() && s1.b.Allocated()
            && (BothConnected(s1) || !s1.a.ExchangeComplete() || !s1.b.ExchangeComplete())
            && (!BothConnected(s1) && !s1.At(second).ExchangeComplete() ==> BothConnected(Retransmit(s1, second)))
  {
    FirstRetransmission(s, first);
    var s1 := Retransmit(s, first);
    if !BothConnected(s1) && !s1.At(second).ExchangeComplete() {
      SecondRetransmission(s1, second);
    }
  }
}
