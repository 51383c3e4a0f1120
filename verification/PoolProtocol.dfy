/** The receive buffer pool with one consumer and any number of returners, step by step. A returner waits until all
    earlier reservations are published, as the comment in the source asks, by keeping its reserved index. Test and
    reservation of a return are one step. */
module PoolProtocol {
  import opened Finite
  import opened Rings
  import opened RecvBufferPools

  /** A thread that returns buffers: not yet reserved, or with slots from index `res` on of which the first
      `written` are filled. */
  datatype Thread =
    | Idle
    | Bringing(bufs: seq<nat>)
    | Reserved(res: nat, bufs: seq<nat>, written: nat, ticket: nat)

  /** The consumer: in a call it moves `goal` buffers to its array, one by one. */
  datatype Consumer = Resting | Taking(got: seq<nat>, goal: nat)

  /** Where a buffer is: under a ticket of the ring, with a thread that has not reserved yet, or in use. */
  datatype Place = At(ticket: nat) | With(thread: nat) | InUse

  /** The ring with its indices, and for the proof: how many tickets were taken, published and reserved, which buffer
      has which ticket, what was handed out, and who reserved a ticket. No step depends on the latter. */
  datatype State = State(
    slots: seq<Option<nat>>,
    front: nat,
    back: nat,
    backRes: nat,
    consumer: Consumer,
    threads: seq<Thread>,
    inUse: set<nat>,
    taken: nat,
    published: nat,
    reserved: nat,
    content: seq<nat>,
    handedOut: seq<nat>,
    reservedBy: seq<nat>,
    place: seq<Place>)

  datatype Event =
    | Begin(t: nat, bufs: seq<nat>)
    | Reserve(t: nat)
    | Write(t: nat)
    | Publish(t: nat)
    | Look(count: nat)
    | LookOne
    | TakeSlot
    | Finish

  ghost predicate Enabled(s: State, e: Event) {
    var n := |s.slots|;
    n > 0 && match e
    case Begin(t, bufs) =>
      t < |s.threads| && s.threads[t].Idle? && bufs != [] && Distinct(bufs) && forall b :: b in bufs ==> b in s.inUse
    case Reserve(t) => t < |s.threads| && s.threads[t].Bringing? && !Overflows(s, t)
    case Write(t) => t < |s.threads| && s.threads[t].Reserved? && s.threads[t].written < |s.threads[t].bufs|
                     && !Overwrites(s, t)
    case Publish(t) => t < |s.threads| && s.threads[t].Reserved? && s.threads[t].written == |s.threads[t].bufs|
                       && s.back == s.threads[t].res
    case Look(count) => s.consumer.Resting? && count > 0 && s.front != s.back && s.front < n && s.back < n
    case LookOne => s.consumer.Resting? && s.front != s.back
    case TakeSlot => s.consumer.Taking? && |s.consumer.got| < s.consumer.goal && !FindsNull(s)
    case Finish => s.consumer.Taking? && |s.consumer.got| == s.consumer.goal
  }

  // The three exceptions

  /** "Pool overflow" */
  ghost predicate Overflows(s: State, t: nat)
    requires |s.slots| > 0 && t < |s.threads| && s.threads[t].Bringing?
  {
    (s.backRes + |s.threads[t].bufs|) % |s.slots| == s.front
  }

  /** "Overwriting existing buffer" */
  ghost predicate Overwrites(s: State, t: nat)
    requires |s.slots| > 0 && t < |s.threads| && s.threads[t].Reserved?
  {
    s.slots[(s.threads[t].res + s.threads[t].written) % |s.slots|].Some?
  }

  /** "Got invalid (null) buffer" */
  ghost predicate FindsNull(s: State)
    requires |s.slots| > 0 && s.consumer.Taking?
  {
    s.slots[(s.front + |s.consumer.got|) % |s.slots|].None?
  }

  function SetThread(threads: seq<Thread>, t: nat, to: Thread): (after: seq<Thread>)
    requires t < |threads|
    ensures |after| == |threads| && forall u :: 0 <= u < |threads| ==> after[u] == if u == t then to else threads[u]
  {
    threads[t := to]
  }

  function IndexOf(bufs: seq<nat>, b: nat): (j: nat)
    requires b in bufs
    ensures j < |bufs| && bufs[j] == b
  {
    if bufs[0] == b then 0 else 1 + IndexOf(bufs[1..], b)
  }

  /** `bufs` get the tickets from `first` on. */
  function Ticketed(place: seq<Place>, bufs: seq<nat>, first: nat): (after: seq<Place>)
    ensures |after| == |place|
    ensures forall b :: 0 <= b < |place| ==> after[b] == if b in bufs then At(first + IndexOf(bufs, b)) else place[b]
  {
    seq(|place|, b requires 0 <= b < |place| => if b in bufs then At(first + IndexOf(bufs, b)) else place[b])
  }

  function Moved(place: seq<Place>, bufs: seq<nat>, to: Place): (after: seq<Place>)
    ensures |after| == |place|
    ensures forall b :: 0 <= b < |place| ==> after[b] == if b in bufs then to else place[b]
  {
    seq(|place|, b requires 0 <= b < |place| => if b in bufs then to else place[b])
  }

  ghost function Apply(s: State, e: Event): State
    requires Enabled(s, e)
  {
    var n := |s.slots|;
    match e
    case Begin(t, bufs) =>
      s.(threads := SetThread(s.threads, t, Bringing(bufs)),
         inUse := s.inUse - Elements(bufs),
         place := Moved(s.place, bufs, With(t)))
    case Reserve(t) =>
      var bufs := s.threads[t].bufs;
      s.(backRes := (s.backRes + |bufs|) % n,
         threads := SetThread(s.threads, t, Reserved(s.backRes, bufs, 0, s.reserved)),
         reserved := s.reserved + |bufs|,
         content := s.content + bufs,
         reservedBy := s.reservedBy + Repeat(t, |bufs|),
         place := Ticketed(s.place, bufs, s.reserved))
    case Write(t) =>
      var th := s.threads[t];
      s.(slots := s.slots[(th.res + th.written) % n := Some(th.bufs[th.written])],
         threads := SetThread(s.threads, t, th.(written := th.written + 1)))
    case Publish(t) =>
      var th := s.threads[t];
      s.(back := (th.res + |th.bufs|) % n,
         threads := SetThread(s.threads, t, Idle),
         published := s.published + |th.bufs|)
    case Look(count) =>
      var available := Available(s.front, s.back, n - 1);
      s.(consumer := Taking([], if available < count then available else count))
    case LookOne => s.(consumer := Taking([], 1))
    case TakeSlot =>
      var k := (s.front + |s.consumer.got|) % n;
      s.(slots := s.slots[k := None],
         consumer := Taking(s.consumer.got + [s.slots[k].value], s.consumer.goal),
         handedOut := s.handedOut + [s.slots[k].value])
    case Finish =>
      s.(front := (s.front + s.consumer.goal) % n,
         consumer := Resting,
         inUse := s.inUse + Elements(s.consumer.got),
         taken := s.taken + s.consumer.goal,
         place := Moved(s.place, s.consumer.got, InUse))
  }

  // The invariant

  function Got(s: State): seq<nat> {
    if s.consumer.Resting? then [] else s.consumer.got
  }

  /** The indices are the counters modulo the ring, and all tickets in use fit into the ring with one slot to spare. */
  ghost predicate Counted(s: State) {
    var n := |s.slots|;
    && n > 0 && |s.place| == n - 1
    && s.front == s.taken % n && s.back == s.published % n && s.backRes == s.reserved % n
    && s.taken + |Got(s)| <= s.published <= s.reserved < s.taken + n
    && (s.consumer.Taking? ==> |s.consumer.got| <= s.consumer.goal <= s.published - s.taken)
    && |s.content| == |s.reservedBy| == s.reserved
  }

  /** First in, first out: buffers are handed out in the order of their tickets. */
  ghost predicate Fifo(s: State) {
    && s.taken + |Got(s)| <= |s.content|
    && Got(s) == s.content[s.taken..s.taken + |Got(s)|]
    && s.handedOut == s.content[..s.taken + |Got(s)|]
  }

  /** Ticket `c` is reserved by a thread that has the buffer for it. */
  ghost predicate Claimed(s: State, c: nat)
    requires c < |s.content| == |s.reservedBy|
  {
    var t := s.reservedBy[c];
    && t < |s.threads| && s.threads[t].Reserved?
    && s.threads[t].ticket <= c < s.threads[t].ticket + |s.threads[t].bufs|
    && s.threads[t].bufs[c - s.threads[t].ticket] == s.content[c]
  }

  ghost predicate Claims(s: State) {
    && |s.content| == |s.reservedBy| == s.reserved
    && forall c :: s.published <= c < s.reserved ==> Claimed(s, c)
  }

  ghost predicate GoodThread(s: State, t: nat)
    requires t < |s.threads| && |s.reservedBy| == s.reserved && |s.slots| > 0
  {
    match s.threads[t]
    case Idle => true
    case Bringing(bufs) =>
      bufs != [] && Distinct(bufs) && forall b :: b in bufs ==> b < |s.place| && s.place[b] == With(t)
    case Reserved(res, bufs, written, ticket) =>
      && res == ticket % |s.slots| && bufs != [] && written <= |bufs|
      && s.published <= ticket && ticket + |bufs| <= s.reserved
      && forall c :: ticket <= c < ticket + |bufs| ==> s.reservedBy[c] == t
  }

  ghost predicate GoodThreads(s: State) {
    && |s.reservedBy| == s.reserved && |s.slots| > 0
    && forall t :: 0 <= t < |s.threads| ==> GoodThread(s, t)
  }

  /** Every buffer is in one place, and is there. */
  ghost predicate Placed(s: State) {
    && |s.content| == s.reserved
    && (forall c :: s.taken <= c < s.reserved ==> s.content[c] < |s.place| && s.place[s.content[c]] == At(c))
    && (forall b :: b in s.inUse ==> b < |s.place| && s.place[b] == InUse)
    && (forall b :: 0 <= b < |s.place| ==> Found(s, b))
  }

  ghost predicate Found(s: State, b: nat)
    requires b < |s.place| && |s.content| == s.reserved
  {
    match s.place[b]
    case At(c) => s.taken <= c < s.reserved && s.content[c] == b
    case With(t) => t < |s.threads| && s.threads[t].Bringing? && b in s.threads[t].bufs
    case InUse => b in s.inUse
  }

  /** What the slot of ticket `c` holds: nothing once taken, its buffer once published or written. */
  function Expected(s: State, c: nat): Option<nat>
    requires |s.content| == |s.reservedBy| == s.reserved && s.published <= s.reserved
  {
    if c < s.taken + |Got(s)| then None
    else if c < s.published then Some(s.content[c])
    else if c < s.reserved && Written(s, c) then Some(s.content[c])
    else None
  }

  predicate Written(s: State, c: nat)
    requires c < |s.reservedBy|
  {
    var t := s.reservedBy[c];
    t < |s.threads| && s.threads[t].Reserved? && c < s.threads[t].ticket + s.threads[t].written
  }

  ghost predicate SlotsAgree(s: State) {
    && |s.content| == |s.reservedBy| == s.reserved && s.published <= s.reserved && |s.slots| > 0
    && forall c :: s.taken <= c < s.taken + |s.slots| ==> s.slots[c % |s.slots|] == Expected(s, c)
  }

  ghost predicate Inv(s: State) {
    Counted(s) && Fifo(s) && Claims(s) && GoodThreads(s) && Placed(s) && SlotsAgree(s)
  }

  // Every step keeps it

  lemma BeginInv(s: State, t: nat, bufs: seq<nat>)
    requires Inv(s) && Enabled(s, Begin(t, bufs))
    ensures Inv(Apply(s, Begin(t, bufs)))
  {
    var s' := Apply(s, Begin(t, bufs));
    forall c | s.published <= c < s.reserved ensures Claimed(s', c) && (Written(s', c) <==> Written(s, c)) {
      assert Claimed(s, c);
    }
    forall u | 0 <= u < |s.threads| ensures GoodThread(s', u) { assert GoodThread(s, u); }
    forall b | 0 <= b < |s.place| ensures Found(s', b) { assert Found(s, b); }
    forall c | s.taken <= c < s.taken + |s.slots| ensures s'.slots[c % |s.slots|] == Expected(s', c) {
      assert s.slots[c % |s.slots|] == Expected(s, c);
    }
  }

  /** The tickets in use and the buffers of a thread are different buffers. */
  lemma TicketsCount(s: State, bufs: seq<nat>)
    requires Counted(s) && Placed(s) && Distinct(bufs)
    requires forall b :: b in bufs ==> b < |s.place| && !s.place[b].At?
    ensures s.reserved - s.taken + |bufs| < |s.slots|
  {
    var all := s.content[s.taken..] + bufs;
    forall i, j | 0 <= i < j < |all| ensures all[i] != all[j] {
      var m := s.reserved - s.taken;
      if i < m { assert all[i] == s.content[s.taken + i]; }
      if j < m { assert all[j] == s.content[s.taken + j]; }
      if i >= m { assert all[i] == bufs[i - m]; }
      if j >= m { assert all[j] == bufs[j - m]; }
    }
    DistinctCount(all);
    forall x | x in Elements(all) ensures x in Below(|s.place|) {
      var i :| 0 <= i < |all| && all[i] == x;
      if i < s.reserved - s.taken { assert all[i] == s.content[s.taken + i]; }
    }
    SubsetCount(Elements(all), Below(|s.place|));
  }

  /** The overflow test never fires. */
  lemma NeverOverflows(s: State, t: nat)
    requires Inv(s) && t < |s.threads| && s.threads[t].Bringing?
    ensures !Overflows(s, t)
    ensures s.reserved + |s.threads[t].bufs| < s.taken + |s.slots|
  {
    assert GoodThread(s, t);
    var m := |s.threads[t].bufs|;
    TicketsCount(s, s.threads[t].bufs);
    SumRemainder(s.reserved, m, |s.slots|);
    SameSlot(s.taken, s.reserved + m, |s.slots|);
  }

  lemma IndexOfIs(bufs: seq<nat>, j: nat)
    requires Distinct(bufs) && j < |bufs|
    ensures IndexOf(bufs, bufs[j]) == j
  {}

  lemma BringsOwn(s: State, t: nat)
    requires GoodThreads(s) && t < |s.threads| && s.threads[t].Bringing?
    ensures var bufs := s.threads[t].bufs;
            bufs != [] && Distinct(bufs) && forall b :: b in bufs ==> b < |s.place| && s.place[b] == With(t)
  {
    assert GoodThread(s, t);
  }

  lemma ReserveClaims(s: State, t: nat)
    requires Inv(s) && Enabled(s, Reserve(t))
    ensures Counted(Apply(s, Reserve(t))) && Claims(Apply(s, Reserve(t)))
    ensures forall c :: s.published <= c < s.reserved ==> (Written(Apply(s, Reserve(t)), c) <==> Written(s, c))
    ensures forall c :: s.reserved <= c < Apply(s, Reserve(t)).reserved ==> !Written(Apply(s, Reserve(t)), c)
  {
    hide SlotsAgree, Placed, GoodThreads, Fifo, Ticketed;
    var s' := Apply(s, Reserve(t));
    NeverOverflows(s, t);
    SumRemainder(s.reserved, |s.threads[t].bufs|, |s.slots|);
    forall c | s.published <= c < s.reserved ensures Claimed(s', c) && (Written(s', c) <==> Written(s, c)) {
      assert Claimed(s, c);
    }
  }

  lemma ReserveThreads(s: State, t: nat)
    requires Inv(s) && Enabled(s, Reserve(t))
    ensures GoodThreads(Apply(s, Reserve(t)))
  {
    hide SlotsAgree, Placed, Claims, Fifo;
    var s' := Apply(s, Reserve(t));
    BringsOwn(s, t);
    forall u | 0 <= u < |s.threads| ensures GoodThread(s', u) {
      assert GoodThread(s, u);
      assert s.threads[u].Bringing? && u != t ==> forall b :: b in s.threads[u].bufs ==> b !in s.threads[t].bufs;
    }
  }

  lemma ReserveFifo(s: State, t: nat)
    requires Inv(s) && Enabled(s, Reserve(t))
    ensures Fifo(Apply(s, Reserve(t)))
  {
    hide SlotsAgree, Placed, Claims, GoodThreads;
  }

  lemma ReserveTickets(s: State, bufs: seq<nat>, t: nat, c: nat)
    requires Placed(s) && Distinct(bufs) && s.taken <= c < s.reserved + |bufs|
    requires forall b :: b in bufs ==> b < |s.place| && s.place[b] == With(t)
    ensures var b := (s.content + bufs)[c]; b < |s.place| && Ticketed(s.place, bufs, s.reserved)[b] == At(c)
  {
    if c >= s.reserved {
      var j := c - s.reserved;
      IndexOfIs(bufs, j);
      assert (s.content + bufs)[c] == bufs[j] && bufs[j] in bufs;
    } else {
      assert (s.content + bufs)[c] == s.content[c];
    }
  }

  lemma ReserveFound(s: State, s': State, t: nat, bufs: seq<nat>, b: nat)
    requires |s.content| == s.reserved && b < |s.place| && Found(s, b)
    requires t < |s.threads| && s.threads[t].Bringing? && bufs == s.threads[t].bufs
    requires s'.content == s.content + bufs && s'.reserved == s.reserved + |bufs|
    requires s.taken == s'.taken <= s.reserved && s'.inUse == s.inUse
    requires s'.place == Ticketed(s.place, bufs, s.reserved)
    requires |s'.threads| == |s.threads| && forall u :: 0 <= u < |s.threads| && u != t ==> s'.threads[u] == s.threads[u]
    ensures Found(s', b)
  {
    if b in bufs {
      var j := IndexOf(bufs, b);
      assert s'.content[s.reserved + j] == bufs[j];
    } else if s.place[b].At? {
      assert s'.content[s.place[b].ticket] == s.content[s.place[b].ticket];
    }
  }

  lemma FoundIn(s: State, b: nat)
    requires Placed(s) && b < |s.place|
    ensures Found(s, b)
  {}

  lemma ReservePlaced(s: State, t: nat)
    requires Inv(s) && Enabled(s, Reserve(t))
    ensures Placed(Apply(s, Reserve(t)))
  {
    hide SlotsAgree, Claims, GoodThreads, Fifo, Found;
    var s' := Apply(s, Reserve(t));
    BringsOwn(s, t);
    forall c | s.taken <= c < s'.reserved ensures s'.content[c] < |s.place| && s'.place[s'.content[c]] == At(c) {
      ReserveTickets(s, s.threads[t].bufs, t, c);
    }
    forall b | 0 <= b < |s.place| ensures Found(s', b) {
      FoundIn(s, b);
      ReserveFound(s, s', t, s.threads[t].bufs, b);
    }
  }

  lemma ReserveInv(s: State, t: nat)
    requires Inv(s) && Enabled(s, Reserve(t))
    ensures Inv(Apply(s, Reserve(t)))
  {
    hide Claims, GoodThreads, Placed, Fifo, Written, Ticketed;
    var s' := Apply(s, Reserve(t));
    ReserveClaims(s, t);
    ReserveThreads(s, t);
    ReserveFifo(s, t);
    ReservePlaced(s, t);
    forall c | s.taken <= c < s.taken + |s.slots| ensures s'.slots[c % |s.slots|] == Expected(s', c) {
      assert s.slots[c % |s.slots|] == Expected(s, c);
    }
  }

  /** The slot a returner is about to fill is empty. */
  lemma NeverOverwrites(s: State, t: nat)
    requires Inv(s) && t < |s.threads| && s.threads[t].Reserved? && s.threads[t].written < |s.threads[t].bufs|
    ensures !Overwrites(s, t) && |s.slots| > 0
    ensures s.slots[(s.threads[t].res + s.threads[t].written) % |s.slots|] == None
  {
    var th := s.threads[t];
    var c := th.ticket + th.written;
    assert GoodThread(s, t);
    SumRemainder(th.ticket, th.written, |s.slots|);
    assert s.slots[c % |s.slots|] == Expected(s, c);
    assert s.reservedBy[c] == t;
  }

  lemma WriteClaims(s: State, t: nat)
    requires Inv(s) && Enabled(s, Write(t))
    ensures Claims(Apply(s, Write(t))) && GoodThreads(Apply(s, Write(t))) && Placed(Apply(s, Write(t)))
    ensures var c0 := s.threads[t].ticket + s.threads[t].written;
            && s.published <= c0 < s.reserved && s.content[c0] == s.threads[t].bufs[s.threads[t].written]
            && forall c :: s.published <= c < s.reserved ==>
                 (Written(Apply(s, Write(t)), c) <==> Written(s, c) || c == c0)
  {
    hide SlotsAgree, Fifo;
    var s' := Apply(s, Write(t));
    var th := s.threads[t];
    var c0 := th.ticket + th.written;
    assert GoodThread(s, t);
    assert Claimed(s, c0);
    forall c | s.published <= c < s.reserved
      ensures Claimed(s', c) && (Written(s', c) <==> Written(s, c) || c == c0)
    {
      assert Claimed(s, c);
      assert s.reservedBy[c] == t ==> s.threads[s.reservedBy[c]] == th;
    }
    forall u | 0 <= u < |s.threads| ensures GoodThread(s', u) { assert GoodThread(s, u); }
    forall b | 0 <= b < |s.place| ensures Found(s', b) { assert Found(s, b); }
  }

  lemma WriteInv(s: State, t: nat)
    requires Inv(s) && Enabled(s, Write(t))
    ensures Inv(Apply(s, Write(t)))
  {
    hide Claims, Placed, Fifo, Written;
    var s' := Apply(s, Write(t));
    var th := s.threads[t];
    var c0 := th.ticket + th.written;
    WriteClaims(s, t);
    assert GoodThread(s, t);
    SumRemainder(th.ticket, th.written, |s.slots|);
    forall c | s.taken <= c < s.taken + |s.slots| ensures s'.slots[c % |s.slots|] == Expected(s', c) {
      assert s.slots[c % |s.slots|] == Expected(s, c);
      if c <= c0 { SameSlot(c, c0, |s.slots|); } else { SameSlot(c0, c, |s.slots|); }
    }
    FifoFrame(s, s');
  }

  lemma FifoFrame(s: State, s': State)
    requires Fifo(s) && s'.taken == s.taken && s'.consumer == s.consumer && s'.content == s.content
    requires s'.handedOut == s.handedOut
    ensures Fifo(s')
  {}

  /** The returner whose index the back has reached is the one with the oldest unpublished ticket. */
  lemma TurnIsTicket(s: State, t: nat)
    requires Inv(s) && t < |s.threads| && s.threads[t].Reserved?
    ensures s.back == s.threads[t].res <==> s.published == s.threads[t].ticket
  {
    assert GoodThread(s, t);
    SameSlot(s.published, s.threads[t].ticket, |s.slots|);
  }

  lemma PublishInv(s: State, t: nat)
    requires Inv(s) && Enabled(s, Publish(t))
    ensures Inv(Apply(s, Publish(t)))
  {
    var s' := Apply(s, Publish(t));
    var th := s.threads[t];
    TurnIsTicket(s, t);
    assert GoodThread(s, t);
    SumRemainder(th.ticket, |th.bufs|, |s.slots|);
    forall c | s.published <= c < s.reserved
      ensures c < s'.published ==> Written(s, c)
      ensures c >= s'.published ==> Claimed(s', c) && (Written(s', c) <==> Written(s, c))
    {
      assert Claimed(s, c);
    }
    forall u | 0 <= u < |s.threads| ensures GoodThread(s', u) {
      assert GoodThread(s, u);
      if u != t && s.threads[u].Reserved? {
        assert s.reservedBy[s.threads[u].ticket] == u;
      }
    }
    forall b | 0 <= b < |s.place| ensures Found(s', b) { assert Found(s, b); }
    forall c | s.taken <= c < s.taken + |s.slots| ensures s'.slots[c % |s.slots|] == Expected(s', c) {
      assert s.slots[c % |s.slots|] == Expected(s, c);
    }
  }

  /** A look at the indices sees how many buffers are published, less one if the ring has wrapped. */
  lemma LookSees(s: State)
    requires Counted(s)
    ensures s.front < |s.slots| && s.back < |s.slots|
    ensures Available(s.front, s.back, |s.slots| - 1) == s.published - s.taken - if s.front <= s.back then 0 else 1
    ensures s.front == s.back <==> s.published == s.taken
  {
    CounterDistance(s.taken, s.published, |s.slots|);
    SameSlot(s.taken, s.published, |s.slots|);
  }

  /** A batch take is going to take as many buffers as asked for, or all that it sees; a single take takes one. */
  lemma LookTakes(s: State, e: Event)
    requires Inv(s) && Enabled(s, e) && (e.Look? || e.LookOne?)
    ensures var consumer, published := Apply(s, e).consumer, s.published - s.taken;
            && consumer.Taking? && consumer.got == []
            && (e.LookOne? ==> consumer.goal == 1 <= published)
            && (e.Look? ==>
                 var seen := if s.front <= s.back then published else published - 1;
                 consumer.goal == if e.count <= seen then e.count else seen)
  {
    LookSees(s);
  }

  lemma LookInv(s: State, e: Event)
    requires Inv(s) && Enabled(s, e) && (e.Look? || e.LookOne?)
    ensures Inv(Apply(s, e))
  {
    LookSees(s);
    var s' := Apply(s, e);
    forall c | s.published <= c < s.reserved ensures Claimed(s', c) { assert Claimed(s, c); }
    forall u | 0 <= u < |s.threads| ensures GoodThread(s', u) { assert GoodThread(s, u); }
    forall b | 0 <= b < |s.place| ensures Found(s', b) { assert Found(s, b); }
    forall c | s.taken <= c < s.taken + |s.slots| ensures s'.slots[c % |s.slots|] == Expected(s', c) {
      assert s.slots[c % |s.slots|] == Expected(s, c);
    }
  }

  /** What the consumer finds in the next slot is the buffer with the next ticket, never null. */
  lemma NeverNull(s: State)
    requires Inv(s) && s.consumer.Taking? && |s.consumer.got| < s.consumer.goal
    ensures !FindsNull(s)
    ensures s.slots[(s.front + |s.consumer.got|) % |s.slots|] == Some(s.content[s.taken + |s.consumer.got|])
  {
    var c := s.taken + |s.consumer.got|;
    SumRemainder(s.taken, |s.consumer.got|, |s.slots|);
    assert s.slots[c % |s.slots|] == Expected(s, c);
  }

  /** One more buffer is handed out, that of the next ticket. */
  lemma FifoTakes(s: State, s': State)
    requires Fifo(s) && s.taken + |Got(s)| < |s.content| && s'.content == s.content && s'.taken == s.taken
    requires var x := s.content[s.taken + |Got(s)|];
             Got(s') == Got(s) + [x] && s'.handedOut == s.handedOut + [x]
    ensures Fifo(s')
  {
    var c0 := s.taken + |Got(s)|;
    PrefixStep(s.content, c0);
    assert s.content[s.taken..c0 + 1] == s.content[s.taken..c0] + [s.content[c0]];
  }

  lemma TakeSlotFifo(s: State)
    requires Inv(s) && Enabled(s, TakeSlot)
    ensures Fifo(Apply(s, TakeSlot))
  {
    hide Inv, FindsNull, Fifo;
    TakeSlotNext(s);
    FifoTakes(s, Apply(s, TakeSlot));
  }

  /** The slot that is taken holds the buffer of the next ticket. */
  lemma TakeSlotNext(s: State)
    requires Inv(s) && Enabled(s, TakeSlot)
    ensures Fifo(s) && s.taken + |Got(s)| < |s.content|
    ensures s.slots[(s.front + |s.consumer.got|) % |s.slots|] == Some(s.content[s.taken + |Got(s)|])
  {
    hide SlotsAgree, Claims, GoodThreads, Placed, Fifo, FindsNull;
    NeverNull(s);
  }

  lemma TakeSlotParts(s: State)
    requires Inv(s) && Enabled(s, TakeSlot)
    ensures var s' := Apply(s, TakeSlot);
            && Counted(s') && Claims(s') && GoodThreads(s') && Placed(s')
            && (forall c :: s.published <= c < s.reserved ==> (Written(s', c) <==> Written(s, c)))
  {
    hide SlotsAgree, Fifo;
    var s' := Apply(s, TakeSlot);
    forall c | s.published <= c < s.reserved ensures Claimed(s', c) { assert Claimed(s, c); }
    forall u | 0 <= u < |s.threads| ensures GoodThread(s', u) { assert GoodThread(s, u); }
    forall b | 0 <= b < |s.place| ensures Found(s', b) { assert Found(s, b); }
  }

  lemma TakeSlotInv(s: State)
    requires Inv(s) && Enabled(s, TakeSlot)
    ensures Inv(Apply(s, TakeSlot))
  {
    hide Claims, GoodThreads, Placed, Fifo, Written;
    var s' := Apply(s, TakeSlot);
    var c0 := s.taken + |s.consumer.got|;
    TakeSlotFifo(s);
    TakeSlotParts(s);
    SumRemainder(s.taken, |s.consumer.got|, |s.slots|);
    forall c | s.taken <= c < s.taken + |s.slots| ensures s'.slots[c % |s.slots|] == Expected(s', c) {
      assert s.slots[c % |s.slots|] == Expected(s, c);
      if c <= c0 { SameSlot(c, c0, |s.slots|); } else { SameSlot(c0, c, |s.slots|); }
    }
  }

  lemma GotTickets(s: State, b: nat)
    requires Counted(s) && Fifo(s) && Placed(s) && b in Got(s)
    ensures b < |s.place| && s.place[b].At? && s.taken <= s.place[b].ticket < s.taken + |Got(s)|
  {
    var i :| 0 <= i < |Got(s)| && Got(s)[i] == b;
    assert s.content[s.taken + i] == b;
  }

  lemma FinishParts(s: State)
    requires Inv(s) && Enabled(s, Finish)
    ensures var s' := Apply(s, Finish);
            && Fifo(s') && Claims(s') && GoodThreads(s') && Placed(s')
            && (forall c :: s.published <= c < s.reserved ==> (Written(s', c) <==> Written(s, c)))
  {
    hide SlotsAgree;
    var s' := Apply(s, Finish);
    forall c | s.published <= c < s.reserved ensures Claimed(s', c) { assert Claimed(s, c); }
    forall b | b in Got(s)
      ensures b < |s.place| && s.place[b].At? && s.taken <= s.place[b].ticket < s'.taken
    {
      GotTickets(s, b);
    }
    forall u | 0 <= u < |s.threads| ensures GoodThread(s', u) { assert GoodThread(s, u); }
    forall b | 0 <= b < |s.place| ensures Found(s', b) {
      assert Found(s, b);
      if s.place[b].At? && s.place[b].ticket < s'.taken {
        assert Got(s)[s.place[b].ticket - s.taken] == b;
      }
    }
  }

  lemma FinishInv(s: State)
    requires Inv(s) && Enabled(s, Finish)
    ensures Inv(Apply(s, Finish))
  {
    hide Claims, GoodThreads, Placed, Fifo, Written;
    var s' := Apply(s, Finish);
    var n := |s.slots|;
    FinishParts(s);
    SumRemainder(s.taken, s.consumer.goal, n);
    forall c | s'.taken <= c < s'.taken + n ensures s'.slots[c % n] == Expected(s', c) {
      if c < s.taken + n {
        assert s.slots[c % n] == Expected(s, c);
      } else {
        assert s.slots[(c - n) % n] == Expected(s, c - n);
        AddModulus(c - n, n);
      }
    }
  }

  lemma StepInv(s: State, e: Event)
    requires Inv(s) && Enabled(s, e)
    ensures Inv(Apply(s, e))
  {
    hide Inv, Apply;
    match e
    case Begin(t, bufs) => BeginInv(s, t, bufs);
    case Reserve(t) => ReserveInv(s, t);
    case Write(t) => WriteInv(s, t);
    case Publish(t) => PublishInv(s, t);
    case Look(_) => LookInv(s, e);
    case LookOne => LookInv(s, e);
    case TakeSlot => TakeSlotInv(s);
    case Finish => FinishInv(s);
  }

  /** A pool of `count` buffers with `threads` returners, all idle. */
  ghost function Initial(count: nat, threads: nat): State {
    State(seq(count + 1, i requires 0 <= i < count + 1 => if i < count then Some(i) else None), 0, count, count,
      Resting, Repeat(Idle, threads), {}, 0, count, count, Indices(count), [], Repeat(0, count),
      seq(count, i requires 0 <= i => At(i)))
  }

  lemma InitialInv(count: nat, threads: nat)
    ensures Inv(Initial(count, threads))
  {
    var s := Initial(count, threads);
    SmallRemainder(0, count + 1);
    SmallRemainder(count, count + 1);
    forall b | 0 <= b < |s.place| ensures Found(s, b) {}
    forall c | 0 <= c < count + 1 ensures s.slots[c % (count + 1)] == Expected(s, c) {
      SmallRemainder(c, count + 1);
    }
  }

  ghost predicate IsRun(s: State, events: seq<Event>)
    decreases |events|
  {
    events == [] || (Enabled(s, events[0]) && IsRun(Apply(s, events[0]), events[1..]))
  }

  ghost function Final(s: State, events: seq<Event>): State
    requires IsRun(s, events)
    decreases |events|
  {
    if events == [] then s else Final(Apply(s, events[0]), events[1..])
  }

  lemma {:induction false} EveryRun(s: State, events: seq<Event>)
    requires Inv(s) && IsRun(s, events)
    decreases |events|
    ensures Inv(Final(s, events))
  {
    hide Inv, Enabled, Apply;
    if events != [] {
      StepInv(s, events[0]);
      EveryRun(Apply(s, events[0]), events[1..]);
    }
  }

  // What the invariant means

  /** In every interleaving none of the three exceptions is ever thrown. */
  lemma {:induction false} NoExceptions(count: nat, threads: nat, events: seq<Event>, s: State)
    requires IsRun(Initial(count, threads), events) && s == Final(Initial(count, threads), events)
    ensures |s.slots| > 0
    ensures forall t :: 0 <= t < |s.threads| && s.threads[t].Bringing? ==> !Overflows(s, t)
    ensures forall t :: 0 <= t < |s.threads| && s.threads[t].Reserved? && s.threads[t].written < |s.threads[t].bufs| ==>
              !Overwrites(s, t)
    ensures s.consumer.Taking? && |s.consumer.got| < s.consumer.goal ==>
              !FindsNull(s) && s.slots[(s.front + |s.consumer.got|) % |s.slots|].Some?
    ensures forall t :: 0 <= t < |s.threads| && s.threads[t].Bringing? ==>
              (s.backRes + |s.threads[t].bufs|) % |s.slots| != s.front
    ensures forall t :: 0 <= t < |s.threads| && s.threads[t].Reserved? && s.threads[t].written < |s.threads[t].bufs| ==>
              s.slots[(s.threads[t].res + s.threads[t].written) % |s.slots|] == None
  {
    hide IsRun, Final, Initial;
    InitialInv(count, threads);
    EveryRun(Initial(count, threads), events);
    assert |s.slots| > 0;
    forall t | 0 <= t < |s.threads| && s.threads[t].Bringing?
      ensures !Overflows(s, t) && (s.backRes + |s.threads[t].bufs|) % |s.slots| != s.front
    {
      NeverOverflows(s, t);
    }
    forall t | 0 <= t < |s.threads| && s.threads[t].Reserved? && s.threads[t].written < |s.threads[t].bufs|
      ensures !Overwrites(s, t) && s.slots[(s.threads[t].res + s.threads[t].written) % |s.slots|] == None
    {
      NeverOverwrites(s, t);
    }
    if s.consumer.Taking? && |s.consumer.got| < s.consumer.goal { NeverNull(s); }
  }

  /** In every interleaving buffers are handed out in the order in which their slots were reserved, the published
      slots hold buffers, and no buffer is in two slots. */
  lemma {:induction false} HandedOutInOrder(count: nat, threads: nat, events: seq<Event>, s: State)
    requires IsRun(Initial(count, threads), events) && s == Final(Initial(count, threads), events)
    ensures s.handedOut <= s.content
    ensures |s.slots| == count + 1 > 0 && s.taken + |Got(s)| <= s.published <= |s.content|
    ensures forall c :: s.taken + |Got(s)| <= c < s.published ==> s.slots[c % |s.slots|] == Some(s.content[c])
    ensures forall c, d :: s.taken <= c < d < s.reserved <= |s.content| ==> s.content[c] != s.content[d]
  {
    InitialInv(count, threads);
    EveryRun(Initial(count, threads), events);
    SlotsStay(Initial(count, threads), events);
    forall c | s.taken + |Got(s)| <= c < s.published ensures s.slots[c % |s.slots|] == Some(s.content[c]) {
      assert s.slots[c % |s.slots|] == Expected(s, c);
    }
  }

  lemma {:induction false} SlotsStay(s: State, events: seq<Event>)
    requires IsRun(s, events)
    decreases |events|
    ensures |Final(s, events).slots| == |s.slots|
  {
    if events != [] { SlotsStay(Apply(s, events[0]), events[1..]); }
  }

  /** No returner waits forever for nobody: while something is reserved but not published, the thread with the oldest
      such ticket can go on. */
  lemma SomebodyGoesOn(s: State)
    requires Inv(s) && s.published < s.reserved
    ensures var t := s.reservedBy[s.published];
            && t < |s.threads| && s.threads[t].Reserved?
            && Enabled(s, if s.threads[t].written < |s.threads[t].bufs| then Write(t) else Publish(t))
  {
    assert Claimed(s, s.published);
    var t := s.reservedBy[s.published];
    assert GoodThread(s, t);
    TurnIsTicket(s, t);
    if s.threads[t].written < |s.threads[t].bufs| { NeverOverwrites(s, t); }
  }

  /** Nobody else waits: a returner that brings buffers can reserve, one that has reserved can go on filling, and the
      consumer can start whenever something is published and finish whatever it has started. */
  lemma NobodyStuck(s: State, t: nat, count: nat)
    requires Inv(s) && t < |s.threads| && count > 0
    ensures s.threads[t].Bringing? ==> Enabled(s, Reserve(t))
    ensures s.threads[t].Reserved? && s.threads[t].written < |s.threads[t].bufs| ==> Enabled(s, Write(t))
    ensures s.consumer.Resting? && s.taken < s.published ==> Enabled(s, Look(count)) && Enabled(s, LookOne)
    ensures s.consumer.Taking? && |s.consumer.got| < s.consumer.goal ==> Enabled(s, TakeSlot)
    ensures s.consumer.Taking? && |s.consumer.got| >= s.consumer.goal ==> Enabled(s, Finish)
  {
    if s.threads[t].Bringing? { NeverOverflows(s, t); }
    if s.threads[t].Reserved? && s.threads[t].written < |s.threads[t].bufs| { NeverOverwrites(s, t); }
    if s.consumer.Taking? && |s.consumer.got| < s.consumer.goal { NeverNull(s); }
    LookSees(s);
  }

  // The loop as it is written

  /** One attempt of the publish loop as it is written: the expected value of a failed compare-and-swap is overwritten
      with the back index that was found, and the next attempt starts from there. */
  ghost function Attempt(s: State, t: nat): State
    requires |s.slots| > 0 && t < |s.threads| && s.threads[t].Reserved?
  {
    var th := s.threads[t];
    if s.back == th.res then
      s.(back := (th.res + |th.bufs|) % |s.slots|, threads := SetThread(s.threads, t, Idle),
         published := s.published + |th.bufs|)
    else
      s.(threads := SetThread(s.threads, t, th.(res := s.back)))
  }

  /** The written loop does what the comment asks exactly if it is this thread's turn: then it publishes its own
      slots, and otherwise it forgets its index, and two attempts publish the slots behind the back at once. */
  lemma AttemptExactly(s: State, t: nat)
    requires Inv(s) && t < |s.threads| && s.threads[t].Reserved? && s.threads[t].written == |s.threads[t].bufs|
    ensures s.published == s.threads[t].ticket <==> Enabled(s, Publish(t)) && Attempt(s, t) == Apply(s, Publish(t))
    ensures s.published != s.threads[t].ticket ==>
              Attempt(Attempt(s, t), t).back == (s.back + |s.threads[t].bufs|) % |s.slots|
  {
    TurnIsTicket(s, t);
    assert GoodThread(s, t);
  }

  /** With one return at a time it is always this thread's turn, so the written loop is right. */
  lemma SerializedReturns(s: State, t: nat)
    requires Inv(s) && t < |s.threads| && s.threads[t].Reserved? && s.threads[t].written == |s.threads[t].bufs|
    requires forall u :: 0 <= u < |s.threads| && u != t ==> !s.threads[u].Reserved?
    ensures Enabled(s, Publish(t)) && Attempt(s, t) == Apply(s, Publish(t)) && Inv(Attempt(s, t))
  {
    assert GoodThread(s, t);
    assert Claimed(s, s.published);
    TurnIsTicket(s, t);
    PublishInv(s, t);
  }

  /** Out of turn, two attempts publish the slots behind the back, whoever has reserved them: what is published is
      filled if and only if the returners before this one have written those slots already. */
  lemma TwoAttemptsExactly(s: State, t: nat)
    requires Inv(s) && t < |s.threads| && s.threads[t].Reserved? && s.threads[t].written == |s.threads[t].bufs|
    requires s.back != s.threads[t].res
    ensures Attempt(s, t).threads[t].Reserved?
    ensures var after, m := Attempt(Attempt(s, t), t), |s.threads[t].bufs|;
            && |after.slots| == |s.slots| > 0 && s.published + m < s.reserved == |s.reservedBy|
            && after.back == (s.published + m) % |s.slots|
            && ((forall c :: s.published <= c < s.published + m ==> after.slots[c % |s.slots|].Some?)
                <==> (forall c :: s.published <= c < s.published + m ==> Written(s, c)))
  {
    var m := |s.threads[t].bufs|;
    TurnIsTicket(s, t);
    assert GoodThread(s, t);
    SumRemainder(s.published, m, |s.slots|);
    forall c | s.published <= c < s.published + m ensures s.slots[c % |s.slots|].Some? <==> Written(s, c) {
      assert s.slots[c % |s.slots|] == Expected(s, c);
    }
  }

  /** The protocol with the loop as it is written: a publish is an attempt, made whether it is the returner's turn or
      not. */
  ghost predicate WrittenEnabled(s: State, e: Event) {
    if e.Publish? then
      |s.slots| > 0 && e.t < |s.threads| && s.threads[e.t].Reserved? && s.threads[e.t].written == |s.threads[e.t].bufs|
    else Enabled(s, e)
  }

  ghost function WrittenApply(s: State, e: Event): State
    requires WrittenEnabled(s, e)
  {
    if e.Publish? then Attempt(s, e.t) else Apply(s, e)
  }

  ghost predicate IsWrittenRun(s: State, events: seq<Event>)
    decreases |events|
  {
    events == [] || (WrittenEnabled(s, events[0]) && IsWrittenRun(WrittenApply(s, events[0]), events[1..]))
  }

  ghost function WrittenFinal(s: State, events: seq<Event>): State
    requires IsWrittenRun(s, events)
    decreases |events|
  {
    if events == [] then s else WrittenFinal(WrittenApply(s, events[0]), events[1..])
  }

  /** At most one returner has reserved slots. */
  ghost predicate OneReturner(s: State) {
    forall t, u :: 0 <= t < |s.threads| && 0 <= u < |s.threads| && s.threads[t].Reserved? && s.threads[u].Reserved?
                   ==> t == u
  }

  /** Returns do not overlap anywhere in the run. */
  ghost predicate Serialized(s: State, events: seq<Event>)
    requires IsWrittenRun(s, events)
    decreases |events|
  {
    OneReturner(s) && (events == [] || Serialized(WrittenApply(s, events[0]), events[1..]))
  }

  lemma WrittenStep(s: State, e: Event)
    requires Inv(s) && OneReturner(s) && WrittenEnabled(s, e)
    ensures Enabled(s, e) && WrittenApply(s, e) == Apply(s, e)
  {
    if e.Publish? { SerializedReturns(s, e.t); }
  }

  /** Every run of the loop as it is written in which returns do not overlap is a run of the protocol the comment
      describes, so everything proved of those runs holds of it. */
  lemma {:induction false} SerializedRuns(s: State, events: seq<Event>)
    requires Inv(s) && IsWrittenRun(s, events) && Serialized(s, events)
    decreases |events|
    ensures IsRun(s, events) && WrittenFinal(s, events) == Final(s, events) && Inv(WrittenFinal(s, events))
  {
    hide Inv, OneReturner, WrittenEnabled, WrittenApply, Enabled, Apply;
    if events != [] {
      WrittenStep(s, events[0]);
      StepInv(s, events[0]);
      SerializedRuns(Apply(s, events[0]), events[1..]);
    }
  }

  lemma {:induction false} RunPush(s: State, events: seq<Event>, e: Event)
    requires IsRun(s, events) && Enabled(Final(s, events), e)
    decreases |events|
    ensures IsRun(s, events + [e]) && Final(s, events + [e]) == Apply(Final(s, events), e)
  {
    hide Enabled, Apply;
    if events == [] {
      assert [e][1..] == [];
    } else {
      assert (events + [e])[1..] == events[1..] + [e];
      RunPush(Apply(s, events[0]), events[1..], e);
    }
  }

  /** The consumer has taken both buffers of a pool of two out of their slots. */
  lemma {:induction false} BothTaken() returns (events: seq<Event>, s: State)
    ensures forall e :: e in events ==> !e.Publish?
    ensures IsRun(Initial(2, 2), events) && s == Final(Initial(2, 2), events)
    ensures s.slots == [None, None, None] && s.front == 0 && s.back == 2 && s.backRes == 2
    ensures s.threads == [Idle, Idle] && s.consumer == Taking([0, 1], 2) && s.inUse == {}
  {
    s, events := Initial(2, 2), [];
    RunPush(s, events, Look(2));
    events, s := [Look(2)], Apply(s, Look(2));
    assert [] + [Look(2)] == events;
    hide IsRun, Final;
    RunPush(Initial(2, 2), events, TakeSlot);
    events, s := events + [TakeSlot], Apply(s, TakeSlot);
    assert s.consumer == Taking([0], 2);
    RunPush(Initial(2, 2), events, TakeSlot);
    events, s := events + [TakeSlot], Apply(s, TakeSlot);
    assert s.threads == [Idle, Idle];
  }

  /** Both buffers are in use. */
  lemma {:induction false} BothInUse() returns (events: seq<Event>, s: State)
    ensures forall e :: e in events ==> !e.Publish?
    ensures IsRun(Initial(2, 2), events) && s == Final(Initial(2, 2), events)
    ensures s.slots == [None, None, None] && s.front == 2 && s.back == 2 && s.backRes == 2
    ensures s.threads == [Idle, Idle] && s.consumer == Resting && s.inUse == {0, 1}
  {
    hide IsRun, Final, Moved;
    events, s := BothTaken();
    RunPush(Initial(2, 2), events, Finish);
    events, s := events + [Finish], Apply(s, Finish);
    assert s.inUse == {0, 1};
  }

  lemma {:induction false} BothBring() returns (events: seq<Event>, s: State)
    ensures forall e :: e in events ==> !e.Publish?
    ensures IsRun(Initial(2, 2), events) && s == Final(Initial(2, 2), events)
    ensures s.slots == [None, None, None] && s.front == 2 && s.back == 2 && s.backRes == 2 && s.consumer == Resting
    ensures s.threads == [Bringing([0]), Bringing([1])]
  {
    hide IsRun, Final;
    events, s := BothInUse();
    RunPush(Initial(2, 2), events, Begin(0, [0]));
    events, s := events + [Begin(0, [0])], Apply(s, Begin(0, [0]));
    assert s.threads == [Bringing([0]), Idle] && 1 in s.inUse;
    RunPush(Initial(2, 2), events, Begin(1, [1]));
    events, s := events + [Begin(1, [1])], Apply(s, Begin(1, [1]));
    assert s.threads == [Bringing([0]), Bringing([1])];
  }

  /** Returner 0 reserves, then returner 1 reserves and writes. */
  lemma {:induction false} SecondIsFaster() returns (events: seq<Event>, s: State)
    ensures forall e :: e in events ==> !e.Publish?
    ensures IsRun(Initial(2, 2), events) && s == Final(Initial(2, 2), events)
    ensures s.front == 2 && s.back == 2 && s.slots == [Some(1), None, None] && s.consumer == Resting
    ensures |s.threads| == 2 && s.threads[1].Reserved? && s.threads[1].res == 0 && s.threads[1].bufs == [1]
    ensures s.threads[1].written == 1
  {
    hide IsRun, Final, Ticketed;
    events, s := BothBring();
    RunPush(Initial(2, 2), events, Reserve(0));
    events, s := events + [Reserve(0)], Apply(s, Reserve(0));
    assert s.backRes == 0 && s.threads[1] == Bringing([1]);
    RunPush(Initial(2, 2), events, Reserve(1));
    events, s := events + [Reserve(1)], Apply(s, Reserve(1));
    assert s.threads[1].res == 0 && s.threads[1].written == 0;
    RunPush(Initial(2, 2), events, Write(1));
    events, s := events + [Write(1)], Apply(s, Write(1));
  }

  /** Without a publish the two loops do the same. */
  lemma {:induction false} NoPublish(s: State, events: seq<Event>)
    requires IsRun(s, events) && forall e :: e in events ==> !e.Publish?
    decreases |events|
    ensures IsWrittenRun(s, events) && WrittenFinal(s, events) == Final(s, events)
  {
    hide Enabled, Apply;
    if events != [] {
      assert events[0] in events;
      NoPublish(Apply(s, events[0]), events[1..]);
    }
  }

  lemma {:induction false} WrittenPush(s: State, events: seq<Event>, e: Event)
    requires IsWrittenRun(s, events) && WrittenEnabled(WrittenFinal(s, events), e)
    decreases |events|
    ensures IsWrittenRun(s, events + [e])
    ensures WrittenFinal(s, events + [e]) == WrittenApply(WrittenFinal(s, events), e)
  {
    hide WrittenEnabled, WrittenApply;
    if events == [] {
      assert [e][1..] == [];
    } else {
      assert (events + [e])[1..] == events[1..] + [e];
      WrittenPush(WrittenApply(s, events[0]), events[1..], e);
    }
  }

  /** With two returners at once a run of the loop as it is written publishes a slot nobody has filled: the second
      returner's first attempt fails and leaves it with the back index, its second attempt succeeds, and the consumer
      then throws because of a null buffer. */
  lemma {:induction false} WrittenLoopFails() returns (events: seq<Event>, s: State)
    ensures IsWrittenRun(Initial(2, 2), events) && s == WrittenFinal(Initial(2, 2), events)
    ensures |s.slots| > 0 && s.consumer.Taking? && |s.consumer.got| < s.consumer.goal && FindsNull(s)
  {
    hide IsRun, Final, IsWrittenRun, WrittenFinal;
    events, s := SecondIsFaster();
    NoPublish(Initial(2, 2), events);
    WrittenPush(Initial(2, 2), events, Publish(1));
    events, s := events + [Publish(1)], Attempt(s, 1);
    assert s.back == 2 && s.threads[1].Reserved? && s.threads[1].res == 2;
    WrittenPush(Initial(2, 2), events, Publish(1));
    events, s := events + [Publish(1)], Attempt(s, 1);
    assert s.back == 0 && s.front == 2;
    WrittenPush(Initial(2, 2), events, LookOne);
    events, s := events + [LookOne], Apply(s, LookOne);
  }
}
