/** The job handlers of the connection manager and its table of connections. */
module ConnectionManagers {
  import opened Finite
  import opened Rings
  import opened Handshake

  /** An atomic flag field that other threads may write at any time. */
  class ExchangeFlags {
    var exchgFlags: Flags

    constructor ()
      ensures exchgFlags == NONE
    {
      exchgFlags := NONE;
    }

    /** Sets flags with a compare-and-swap loop. `writes` are what other threads store between a load and the swap
        behind it: whatever was stored last is kept, and no flag of it is lost. */
    method FlagConnectionExchgState(flag: Flags, writes: seq<Flags>) returns (attempts: nat)
      modifies this
      ensures 0 < attempts <= |writes| + 1
      ensures attempts <= |writes| ==>
                writes[attempts - 1] == if attempts == 1 then old(exchgFlags) else writes[attempts - 2]
      ensures var stored := if attempts == 1 then old(exchgFlags) else writes[attempts - 2];
              && exchgFlags == stored.Or(flag)
              && (exchgFlags.connectedToRemote <==> stored.connectedToRemote || flag.connectedToRemote)
              && (exchgFlags.remoteConnected <==> stored.remoteConnected || flag.remoteConnected)
    {
      var prev := exchgFlags;
      attempts := 0;
      while true
        invariant 0 <= attempts <= |writes|
        invariant prev == exchgFlags == if attempts == 0 then old(exchgFlags) else writes[attempts - 1]
        decreases |writes| - attempts
      {
        var newVal := prev.Or(flag);
        if attempts < |writes| { exchgFlags := writes[attempts]; }
        attempts := attempts + 1;
        if exchgFlags == prev {
          exchgFlags := newVal;
          return;
        }
        prev := exchgFlags;
      }
    }
  }

  /** The ids of the connections there are. */
  function ConnectionIds(peers: seq<Peer>): seq<nat> {
    if peers == [] then []
    else (if peers[0].Allocated() then [peers[0].connection.value] else []) + ConnectionIds(peers[1..])
  }

  lemma {:induction false} IdIsListed(peers: seq<Peer>, u: nat)
    requires u < |peers| && peers[u].Allocated()
    ensures peers[u].connection.value in ConnectionIds(peers)
  {
    if u > 0 { IdIsListed(peers[1..], u - 1); }
  }

  /** Giving one more node a connection. */
  lemma {:induction false} IdsAllocate(peers: seq<Peer>, node: nat, p: Peer, x: nat)
    requires node < |peers| && !peers[node].Allocated() && p.Allocated()
    ensures Occurs(ConnectionIds(peers[node := p]), x)
         == Occurs(ConnectionIds(peers), x) + if p.connection.value == x then 1 else 0
  {
    var own := if peers[0].Allocated() then [peers[0].connection.value] else [];
    if node == 0 {
      assert peers[0 := p][1..] == peers[1..];
      assert ConnectionIds(peers) == ConnectionIds(peers[1..]);
      OccursConcat([p.connection.value], ConnectionIds(peers[1..]), x);
    } else {
      assert peers[node := p][1..] == peers[1..][node - 1 := p];
      IdsAllocate(peers[1..], node - 1, p, x);
      OccursConcat(own, ConnectionIds(peers[1..]), x);
      OccursConcat(own, ConnectionIds(peers[1..][node - 1 := p]), x);
    }
  }

  lemma {:induction false} IdsSame(peers: seq<Peer>, node: nat, p: Peer)
    requires node < |peers| && p.connection == peers[node].connection
    ensures ConnectionIds(peers[node := p]) == ConnectionIds(peers)
  {
    if node == 0 {
      assert peers[0 := p][1..] == peers[1..];
    } else {
      assert peers[node := p][1..] == peers[1..][node - 1 := p];
      IdsSame(peers[1..], node - 1, p);
    }
  }

  /** Every id below the maximum is either free or the id of one connection. */
  ghost predicate OneOwner(free: seq<nat>, peers: seq<Peer>, max: nat) {
    forall x: nat :: Occurs(free, x) + Occurs(ConnectionIds(peers), x) == if x < max then 1 else 0
  }

  lemma TakeId(free: seq<nat>, peers: seq<Peer>, node: nat, p: Peer, max: nat)
    requires free != [] && node < |peers| && !peers[node].Allocated() && p.connection == Some(free[|free| - 1])
    requires OneOwner(free, peers, max)
    ensures OneOwner(free[..|free| - 1], peers[node := p], max)
    ensures p.connection.value !in ConnectionIds(peers) && p.connection.value < max
  {
    var k := |free| - 1;
    assert free == free[..k] + [free[k]];
    forall x: nat
      ensures Occurs(free[..k], x) + Occurs(ConnectionIds(peers[node := p]), x) == if x < max then 1 else 0
    {
      OccursPush(free[..k], free[k], x);
      IdsAllocate(peers, node, p, x);
    }
    OccursPush(free[..k], free[k], free[k]);
    OccursIn(ConnectionIds(peers), free[k]);
  }

  lemma GiveIdBack(free: seq<nat>, peers: seq<Peer>, node: nat, max: nat)
    requires node < |peers| && peers[node].Allocated() && OneOwner(free, peers, max)
    ensures OneOwner(free + [peers[node].connection.value], peers[node := FRESH], max)
  {
    var id, after := peers[node].connection.value, peers[node := FRESH];
    assert after[node := peers[node]] == peers;
    forall x: nat
      ensures Occurs(free + [id], x) + Occurs(ConnectionIds(after), x) == if x < max then 1 else 0
    {
      OccursPush(free, id, x);
      IdsAllocate(after, node, peers[node], x);
    }
  }

  /** The ids from `i` up to the maximum. */
  ghost predicate CountDown(ids: seq<nat>, i: nat, max: nat) {
    forall x: nat :: Occurs(ids, x) == if i <= x < max then 1 else 0
  }

  lemma CountDownStep(ids: seq<nat>, i: nat, max: nat)
    requires CountDown(ids, i + 1, max) && i < max
    ensures CountDown(ids + [i], i, max)
  {
    forall x: nat ensures Occurs(ids + [i], x) == if i <= x < max then 1 else 0 { OccursPush(ids, i, x); }
  }

  /** Jobs that the manager adds for its job thread. */
  datatype Job = CreateConnection(node: nat) | CloseConnection(node: nat)

  datatype Creation = Ignored | NullConnection | Sent(header: Header)

  class ConnectionManager {
    const own: Endpoint
    const maxNumConnections: nat
    const peers: array<Peer>
    /** Whether a thread that asked for the connection repeats the exchange from time to time. */
    const triggerReExchange: array<bool>
    var availableConnectionIds: seq<nat>
    var jobs: seq<Job>

    ghost predicate Valid()
      reads this, peers
    {
      triggerReExchange.Length == peers.Length && OneOwner(availableConnectionIds, peers[..], maxNumConnections)
    }

    constructor (own: Endpoint, maxNumConnections: nat, nodes: nat)
      ensures Valid() && fresh(peers) && peers[..] == Repeat(FRESH, nodes)
      ensures fresh(triggerReExchange) && triggerReExchange[..] == Repeat(false, nodes) && jobs == []
      ensures this.own == own && this.maxNumConnections == maxNumConnections
    {
      this.own := own;
      this.maxNumConnections := maxNumConnections;
      var ids: seq<nat> := [];
      var i := maxNumConnections;
      while i > 0
        invariant CountDown(ids, i, maxNumConnections)
      {
        i := i - 1;
        CountDownStep(ids, i, maxNumConnections);
        ids := ids + [i];
      }
      availableConnectionIds := ids;
      peers := new Peer[nodes](_ => FRESH);
      triggerReExchange := new bool[nodes](_ => false);
      jobs := [];
      new;
      assert triggerReExchange[..] == Repeat(false, nodes);
      assert peers[..] == Repeat(FRESH, nodes);
      NoIds(nodes);
    }

    /** Gives a node a connection and an id nobody else has, if it has none. The source takes the last free id
        without a check that there is one. */
    method AllocateConnection(node: nat) returns (created: bool)
      requires Valid() && node < peers.Length && (peers[node].Allocated() || availableConnectionIds != [])
      modifies this`availableConnectionIds, peers
      ensures Valid() && created == !old(peers[node]).Allocated()
      ensures peers[node].Allocated() && peers[node] == Allocate(old(peers[node]), peers[node].connection.value)
      ensures peers[..] == old(peers[..])[node := peers[node]]
      ensures created ==> peers[node].connection.value !in ConnectionIds(old(peers[..]))
                            && peers[node].connection.value < maxNumConnections
      ensures created ==> forall u :: 0 <= u < peers.Length && u != node && peers[u].connection.Some? ==>
                                        peers[u].connection.value != peers[node].connection.value
      ensures !created ==> availableConnectionIds == old(availableConnectionIds)
    {
      if !peers[node].Allocated() {
        var k := |availableConnectionIds| - 1;
        var connectionId := availableConnectionIds[k];
        ghost var before := peers[..];
        ghost var p := Allocate(peers[node], connectionId);
        TakeId(availableConnectionIds, before, node, p, maxNumConnections);
        availableConnectionIds := availableConnectionIds[..k];
        peers[node] := peers[node].(connection := Some(connectionId));
        peers[node] := peers[node].(phase := Created);
        assert peers[..] == before[node := p];
        forall u | 0 <= u < |before| && before[u].Allocated()
          ensures before[u].connection.value in ConnectionIds(before)
        {
          IdIsListed(before, u);
        }
        return true;
      }
      return false;
    }

    /** What a caller of `GetConnection` that finds no connection does before it waits. The job is added exactly if
        the node is not connected and nobody's flag is set; the one who adds it repeats it from time to time. */
    method RequestCreation(node: nat) returns (periodic: bool)
      requires Valid() && node < peers.Length
      modifies this`jobs, peers, triggerReExchange
      ensures Valid() && peers[..] == old(peers[..])[node := peers[node]]
      ensures peers[node] == if old(peers[node]).phase == NotAvailable then old(peers[node]).(phase := InCreation)
                             else old(peers[node])
      ensures periodic <==> old(peers[node]).phase != Connected && !old(triggerReExchange[node])
      ensures triggerReExchange[..]
           == old(triggerReExchange[..])[node := old(triggerReExchange[node]) || periodic]
      ensures jobs == if periodic then old(jobs) + [CreateConnection(node)] else old(jobs)
    {
      ghost var before := peers[..];
      periodic := false;
      if peers[node].phase != Connected {
        if peers[node].phase == NotAvailable {
          peers[node] := peers[node].(phase := InCreation);
        }
        if !triggerReExchange[node] {
          triggerReExchange[node] := true;
          periodic := true;
          jobs := jobs + [CreateConnection(node)];
        }
      }
      assert peers[..] == before[node := peers[node]];
      IdsSame(before, node, peers[node]);
    }

    /** What the caller who added the job does when the connection is not there in time. */
    method GiveUp(node: nat)
      requires Valid() && node < peers.Length
      modifies peers, triggerReExchange
      ensures Valid() && peers[..] == old(peers[..])[node := peers[node]]
      ensures peers[node] == if old(peers[node]).phase == InCreation then old(peers[node]).(phase := NotAvailable)
                             else old(peers[node])
      ensures triggerReExchange[..] == old(triggerReExchange[..])[node := false]
    {
      ghost var before := peers[..];
      if peers[node].phase == InCreation {
        peers[node] := peers[node].(phase := NotAvailable);
      }
      triggerReExchange[node] := false;
      assert peers[..] == before[node := peers[node]];
      IdsSame(before, node, peers[node]);
    }

    /** Closing a connection: the node is as if it had never been connected, and the id is free again. */
    method JobDispatchCloseConnection(node: nat)
      requires Valid() && node < peers.Length
      modifies this`availableConnectionIds, peers
      ensures Valid() && peers[..] == old(peers[..])[node := peers[node]]
      ensures peers[node] == if old(peers[node]).Allocated() then FRESH else old(peers[node])
      ensures old(peers[node]).connection.Some? ==>
                peers[node] == Peer(NotAvailable, Flags(false, false), Flags(false, false), None, None)
      ensures availableConnectionIds
           == old(availableConnectionIds)
              + if old(peers[node]).Allocated() then [old(peers[node]).connection.value] else []
    {
      if !peers[node].Allocated() {
        assert peers[..] == peers[..][node := peers[node]];
        return;
      }
      ghost var before := peers[..];
      var connectionId := peers[node].connection.value;
      peers[node] := peers[node].(connection := None, remote := None);
      peers[node] := peers[node].(flags := NONE);
      peers[node] := peers[node].(remoteFlags := NONE);
      peers[node] := peers[node].(phase := NotAvailable);
      assert peers[..] == before[node := FRESH];
      GiveIdBack(availableConnectionIds, before, node, maxNumConnections);
      availableConnectionIds := availableConnectionIds + [connectionId];
    }

    /** The flag outlives the connection: after a connection that was created on request is closed, asking for it
        again adds no job. */
    method AskAgain(node: nat) returns (periodic: bool)
      requires Valid() && node < peers.Length && peers[node].phase == Connected && peers[node].Allocated()
      requires triggerReExchange[node]
      modifies this`availableConnectionIds, this`jobs, peers, triggerReExchange
      ensures Valid() && !periodic && jobs == old(jobs)
      ensures peers[node] == FRESH.(phase := InCreation) && triggerReExchange[node]
    {
      JobDispatchCloseConnection(node);
      periodic := RequestCreation(node);
      assert triggerReExchange[node] == triggerReExchange[..][node];
    }

    /** Starting or repeating the exchange; nothing happens for a node that is not discovered. A node that has no
        connection and is not in creation any more, because it was given up or closed meanwhile, leads to a
        null pointer. */
    method JobDispatchCreateConnection(node: nat, discovered: bool) returns (result: Creation)
      requires Valid() && node < peers.Length
      requires discovered && !peers[node].Allocated() && peers[node].phase == InCreation ==>
                 availableConnectionIds != []
      modifies this`availableConnectionIds, peers
      ensures Valid() && peers[..] == old(peers[..])[node := peers[node]]
      ensures result == Ignored <==> !discovered
      ensures result == NullConnection <==>
                discovered && !old(peers[node]).Allocated() && old(peers[node]).phase != InCreation
      ensures result.Sent? ==>
                peers[node].Allocated() && peers[node] == Allocate(old(peers[node]), peers[node].connection.value)
                && result.header == HeaderOf(peers[node], own)
                && result.header == Header(old(peers[node]).flags, old(peers[node]).remoteFlags, own)
      ensures !result.Sent? ==> peers[..] == old(peers[..])
    {
      if !discovered {
        return Ignored;
      }
      if peers[node].phase == InCreation {
        var _ := AllocateConnection(node);
      }
      if !peers[node].Allocated() {
        return NullConnection;
      }
      return Sent(HeaderOf(peers[node], own));
    }

    /** Handling a header: on the table of connections it does what `Receive` says of one. When it turns out that the
        other node has been restarted, the connection is to be closed and created again. */
    method JobDispatchConnectConnection(node: nat, header: Header, discovered: bool) returns (outcome: Outcome)
      requires Valid() && node < peers.Length
      requires discovered ==> peers[node].Allocated() || availableConnectionIds != []
      modifies this`availableConnectionIds, this`jobs, peers
      ensures Valid() && peers[..] == old(peers[..])[node := peers[node]]
      ensures !discovered ==> outcome == Silent && peers[..] == old(peers[..])
      ensures discovered ==>
                peers[node].Allocated()
                && (peers[node], outcome)
                   == Receive(Allocate(old(peers[node]), peers[node].connection.value), header, own)
      ensures jobs == if outcome == Restart then old(jobs) + [CloseConnection(node), CreateConnection(node)]
                      else old(jobs)
      ensures discovered ==>
                var p, complete := old(peers[node]), header.flags == Flags(true, true);
                var created := p.phase == Created || p.connection == None;
                var other := p.flags.connectedToRemote && p.remote.Some?
                             && p.remote.value.ident != header.endpoint.ident;
                && jobs == (if created && complete && other
                            then old(jobs) + [CloseConnection(node), CreateConnection(node)] else old(jobs))
                && (outcome == Opened <==> created && complete && !other)
                && (outcome.Reply? <==> !complete || (!created && peers[node].flags != header.flagsRemote))
                && (outcome.Reply? ==> outcome.header == Header(peers[node].flags, header.flags, own))
                && (created && complete ==> peers[node].phase == Connected)
    {
      if !discovered {
        return Silent;
      }
      var _ := AllocateConnection(node);
      outcome := Exchange(node, header);
    }

    /** A node that was never heard of is asked for, its complete header opens the connection, the connection is closed,
        and the node is asked for again: the second request adds no job. */
    method AskTwice(node: nat, header: Header) returns (first: bool, second: bool)
      requires Valid() && node < peers.Length && peers[node] == FRESH && !triggerReExchange[node]
      requires availableConnectionIds != [] && header.flags == COMPLETED
      modifies this`availableConnectionIds, this`jobs, peers, triggerReExchange
      ensures Valid() && first && !second && jobs == old(jobs) + [CreateConnection(node)]
      ensures peers[node] == FRESH.(phase := InCreation)
    {
      first := RequestCreation(node);
      assert triggerReExchange[node] == triggerReExchange[..][node];
      var outcome := JobDispatchConnectConnection(node, header, true);
      assert outcome == Opened;
      second := AskAgain(node);
    }

    /** The exchange proper. A connection opens when both sides are complete, unless the header comes from another
        connection manager than the one this node had connected to: then it is to be closed and created again. */
    method Exchange(node: nat, header: Header) returns (outcome: Outcome)
      requires Valid() && node < peers.Length && peers[node].Allocated()
      modifies this`jobs, peers
      ensures Valid() && peers[..] == old(peers[..])[node := peers[node]]
      ensures (peers[node], outcome) == Receive(old(peers[node]), header, own)
      ensures jobs == if outcome == Restart then old(jobs) + [CloseConnection(node), CreateConnection(node)]
                      else old(jobs)
      ensures peers[node].connection == old(peers[node]).connection && peers[node].remoteFlags == header.flags
      ensures peers[node].flags.connectedToRemote
      ensures peers[node].flags.remoteConnected
         <==> old(peers[node]).flags.remoteConnected || header.flags.connectedToRemote
      ensures peers[node].remote
           == if old(peers[node]).flags.connectedToRemote then old(peers[node]).remote else Some(header.endpoint)
      ensures var p, complete := old(peers[node]), header.flags == Flags(true, true);
              var other := p.flags.connectedToRemote && p.remote.Some? && p.remote.value.ident != header.endpoint.ident;
              && peers[node].phase == (if p.phase == Created && complete then Connected else p.phase)
              && jobs == (if p.phase == Created && complete && other
                          then old(jobs) + [CloseConnection(node), CreateConnection(node)] else old(jobs))
              && (outcome == Opened <==> p.phase == Created && complete && !other)
              && (outcome.Reply? <==>
                   !complete || (p.phase != Created && peers[node].flags != header.flagsRemote))
              && (outcome.Reply? ==> outcome.header == Header(peers[node].flags, header.flags, own))
    {
      ghost var before := peers[..];
      peers[node] := peers[node].(remoteFlags := header.flags);
      if !peers[node].flags.connectedToRemote {
        peers[node] := peers[node].(remote := Some(header.endpoint));
        peers[node] := peers[node].(flags := peers[node].flags.Or(Flags(true, false)));
      }
      if !peers[node].flags.remoteConnected && header.flags.connectedToRemote {
        peers[node] := peers[node].(flags := peers[node].flags.Or(Flags(false, true)));
      }
      outcome := Silent;
      if peers[node].ExchangeComplete() && peers[node].phase == Created {
        peers[node] := peers[node].(phase := Connected);
        outcome := Opened;
        if Restarted(peers[node], header) {
          jobs := jobs + [CloseConnection(node)];
          jobs := jobs + [CreateConnection(node)];
          outcome := Restart;
        }
      } else if !peers[node].ExchangeComplete() || peers[node].flags != header.flagsRemote {
        outcome := Reply(HeaderOf(peers[node], own));
      }
      assert peers[..] == before[node := peers[node]];
      IdsSame(before, node, peers[node]);
    }
  }

  lemma {:induction false} NoIds(nodes: nat)
    ensures ConnectionIds(Repeat(FRESH, nodes)) == []
  {
    if nodes > 0 {
      assert Repeat(FRESH, nodes)[1..] == Repeat(FRESH, nodes - 1);
      NoIds(nodes - 1);
    }
  }
}
