/** The job queue with any number of threads that add jobs and one that takes them, one atomic access to a shared
    variable per step. The counters a thread has loaded may be old when it uses them. */
module JobProtocol {
  import opened Arithmetic
  import opened Rings
  import opened JobQueues

  /** `PushBack` between its steps: the reservation counter has been loaded, then the front; a place has been
      reserved, the job is in its slot. Places are numbered by `ticket`. */
  datatype Pusher<T> =
    | Ready
    | Loaded(job: T, res: U32)
    | Looked(job: T, res: U32, seen: U32)
    | Reserved(job: T, res: U32, ticket: nat)
    | Stored(job: T, res: U32, ticket: nat)
  {
    predicate HasTicket() { Reserved? || Stored? }
  }

  /** `PopFront` between its steps: the front has been loaded, both counters have been loaded, when `at` jobs had been
      published in all, and a job has been read. */
  datatype Popper<T> = Idle | SawFront(front: U32) | SawBoth(front: U32, back: U32, at: nat) | Read(job: T)

  /** The shared variables and the threads; and, by their tickets, all the jobs for which places were reserved, the
      threads that did so, and how many were published and taken. */
  datatype State<T> = State(size: nat, slots: seq<Option<T>>, front: U32, back: U32, backRes: U32,
                            pushers: seq<Pusher<T>>, popper: Popper<T>, jobs: seq<T>, owner: seq<nat>, published: nat,
                            taken: nat)
  {
    /** The jobs in the queue. */
    function Waiting(): seq<T> {
      if taken <= published <= |jobs| then jobs[taken..published] else []
    }
  }

  function Initial<T>(size: nat, threads: nat): State<T> {
    State(size, seq(size, _ => None), 0, 0, 0, seq(threads, _ => Ready), Idle, [], [], 0, 0)
  }

  /** `Retry` is a compare-and-swap of the reservation counter that fails. */
  datatype Event<T> =
    | LoadRes(t: nat, job: T) | LookFront(t: nat) | Reserve(t: nat) | Retry(t: nat) | Store(t: nat) | Publish(t: nat)
    | LoadFront | LoadBack | ReadSlot | Advance

  /** The capacity test as it is written, on what the thread has loaded. */
  predicate Refuses<T>(s: State<T>, t: nat)
    requires t < |s.pushers| && s.pushers[t].Looked? && s.size > 0
  {
    Add32(s.pushers[t].res, 1 % s.size) == s.pushers[t].seen % s.size
  }

  /** A thread publishes when the jobs before its own are published. */
  ghost predicate Enabled<T>(s: State<T>, e: Event<T>) {
    && s.size == |s.slots| > 0
    && match e
       case LoadRes(t, _) => t < |s.pushers| && s.pushers[t].Ready?
       case LookFront(t) => t < |s.pushers| && s.pushers[t].Loaded?
       case Reserve(t) => t < |s.pushers| && s.pushers[t].Looked? && (Refuses(s, t) || s.backRes == s.pushers[t].res)
       case Retry(t) => t < |s.pushers| && s.pushers[t].Looked? && !Refuses(s, t)
       case Store(t) => t < |s.pushers| && s.pushers[t].Reserved?
       case Publish(t) => t < |s.pushers| && s.pushers[t].Stored? && s.back == s.pushers[t].res
       case LoadFront => s.popper.Idle?
       case LoadBack => s.popper.SawFront?
       case ReadSlot => s.popper.SawBoth?
       case Advance => s.popper.Read?
  }

  /** Reading a slot that was never filled leaves the popper where it is. */
  ghost function Apply<T>(s: State<T>, e: Event<T>): State<T>
    requires Enabled(s, e)
  {
    match e
    case LoadRes(t, job) => s.(pushers := s.pushers[t := Loaded(job, s.backRes)])
    case LookFront(t) => s.(pushers := s.pushers[t := Looked(s.pushers[t].job, s.pushers[t].res, s.front)])
    case Reserve(t) =>
      var p := s.pushers[t];
      if Refuses(s, t) then s.(pushers := s.pushers[t := Ready])
      else
        s.(backRes := Add32(p.res, 1),
           pushers := s.pushers[t := Reserved(p.job, p.res, |s.jobs|)],
           jobs := s.jobs + [p.job],
           owner := s.owner + [t])
    case Retry(t) => s.(pushers := s.pushers[t := Loaded(s.pushers[t].job, s.backRes)])
    case Store(t) =>
      var p := s.pushers[t];
      s.(slots := s.slots[p.res % s.size := Some(p.job)],
         pushers := s.pushers[t := Stored(p.job, p.res, p.ticket)])
    case Publish(t) => Published(s, t)
    case LoadFront => s.(popper := SawFront(s.front))
    case LoadBack => s.(popper := SawBoth(s.popper.front, s.back, s.published))
    case ReadSlot =>
      if LooksEmptyTo(s) then s.(popper := Idle)
      else
        var slot := s.slots[s.popper.front % s.size];
        if slot.Some? then s.(popper := Read(slot.value)) else s
    case Advance => s.(front := Add32(s.front, 1), popper := Idle, taken := s.taken + 1)
  }

  function Published<T>(s: State<T>, t: nat): State<T>
    requires t < |s.pushers| && s.pushers[t].Stored?
  {
    s.(back := Add32(s.pushers[t].res, 1), pushers := s.pushers[t := Ready], published := s.published + 1)
  }

  /** The popper finds the two counters in the same slot. */
  predicate LooksEmptyTo<T>(s: State<T>)
    requires s.popper.SawBoth? && s.size > 0
  {
    s.popper.front % s.size == s.popper.back % s.size
  }

  /** The counters are numbers of jobs cut to 32 bits. */
  ghost predicate Counted<T>(s: State<T>) {
    && 2 <= s.size == |s.slots| && WORD % s.size == 0
    && |s.owner| == |s.jobs| && s.taken <= s.published <= |s.jobs| <= s.taken + s.size
    && s.front == s.taken % WORD && s.back == s.published % WORD && s.backRes == |s.jobs| % WORD
  }

  /** An unpublished place belongs to a thread that knows of it. */
  ghost predicate Claimed<T>(s: State<T>, c: nat)
    requires c < |s.owner|
  {
    && s.owner[c] < |s.pushers|
    && s.pushers[s.owner[c]].HasTicket() && s.pushers[s.owner[c]].ticket == c
  }

  ghost predicate Claims<T>(s: State<T>)
    requires |s.owner| == |s.jobs|
  {
    forall c :: s.published <= c < |s.jobs| ==> Claimed(s, c)
  }

  ghost predicate GoodPusher<T(!new)>(s: State<T>, t: nat)
    requires t < |s.pushers| && |s.owner| == |s.jobs|
  {
    s.pushers[t].HasTicket() ==>
      var p := s.pushers[t];
      && s.published <= p.ticket < |s.jobs| && s.owner[p.ticket] == t && s.jobs[p.ticket] == p.job
      && p.res == p.ticket % WORD
  }

  ghost predicate GoodPushers<T(!new)>(s: State<T>)
    requires |s.owner| == |s.jobs|
  {
    forall t :: 0 <= t < |s.pushers| ==> GoodPusher(s, t)
  }

  /** Job `c` is in its slot. */
  ghost predicate Written<T>(s: State<T>, c: nat)
    requires c < |s.owner|
  {
    c < s.published || (s.owner[c] < |s.pushers| && s.pushers[s.owner[c]].Stored?)
  }

  ghost predicate Filled<T(!new)>(s: State<T>)
    requires |s.owner| == |s.jobs| && |s.slots| > 0
  {
    forall c :: s.taken <= c < |s.jobs| && Written(s, c) ==> s.slots[c % |s.slots|] == Some(s.jobs[c])
  }

  /** What the popper has seen was so, and can only have grown. */
  ghost predicate PopperKnows<T(!new)>(s: State<T>) {
    && (s.popper.SawFront? || s.popper.SawBoth? ==> s.popper.front == s.front)
    && (s.popper.SawBoth? ==> s.taken <= s.popper.at <= s.published && s.popper.back == s.popper.at % WORD)
    && (s.popper.Read? ==> s.taken < s.published <= |s.jobs| && s.popper.job == s.jobs[s.taken])
  }

  ghost predicate Inv<T(!new)>(s: State<T>) {
    Counted(s) && Claims(s) && GoodPushers(s) && Filled(s) && PopperKnows(s)
  }

  lemma InitialInv<T(!new)>(size: nat, threads: nat)
    requires 2 <= size && WORD % size == 0
    ensures Inv(Initial<T>(size, threads))
  {}

  /** The slot of a counter is that of the number it stands for. */
  lemma CounterOf(n: nat, size: nat)
    requires size > 0 && WORD % size == 0
    ensures n % WORD % size == n % size
    decreases n
  {
    if n >= WORD {
      CounterOf(n - WORD, size);
      AddModulus(n - WORD, WORD);
      var k := WORD / size;
      assert k * size == WORD;
      var b := n - WORD;
      assert n == (b / size + k) * size + b % size;
      QuotientUnique(n, size, b / size + k, b % size);
    } else {
      SmallRemainder(n, WORD);
    }
  }

  lemma CounterNext(n: nat)
    ensures Add32(n % WORD, 1) == (n + 1) % WORD
  {}

  // Every step keeps the invariant, as long as no place is reserved on a full ring

  ghost predicate HasRoom<T>(s: State<T>, e: Event<T>) {
    e.Reserve? ==> |s.jobs| < s.taken + s.size
  }

  /** A step of a thread that neither reserves nor stores nor publishes. */
  lemma QuietInv<T(!new)>(s: State<T>, t: nat, p: Pusher<T>)
    requires Inv(s) && t < |s.pushers| && !s.pushers[t].HasTicket() && !p.HasTicket()
    ensures Inv(s.(pushers := s.pushers[t := p]))
  {
    var s' := s.(pushers := s.pushers[t := p]);
    forall c | s.published <= c < |s.jobs| ensures Claimed(s', c) { assert Claimed(s, c); }
    forall u | 0 <= u < |s.pushers| ensures GoodPusher(s', u) { assert GoodPusher(s, u); }
    forall c | s.taken <= c < |s.jobs| && Written(s', c) ensures Written(s, c) {
      if c >= s.published { assert Claimed(s, c); }
    }
  }

  lemma ReserveInv<T(!new)>(s: State<T>, t: nat)
    requires Inv(s) && Enabled(s, Reserve(t)) && HasRoom(s, Reserve(t)) && !Refuses(s, t)
    ensures Inv(Apply(s, Reserve(t)))
  {
    var s' := Apply(s, Reserve(t));
    CounterNext(|s.jobs|);
    forall c | s.published <= c < |s'.jobs| ensures Claimed(s', c) {
      if c < |s.jobs| { assert Claimed(s, c); }
    }
    forall u | 0 <= u < |s.pushers| ensures GoodPusher(s', u) { assert GoodPusher(s, u); }
    forall c | s.taken <= c < |s'.jobs| && Written(s', c) ensures c < |s.jobs| && Written(s, c) {
      if s.published <= c < |s.jobs| { assert Claimed(s, c); }
    }
  }

  lemma StoreInv<T(!new)>(s: State<T>, t: nat)
    requires Inv(s) && Enabled(s, Store(t))
    ensures Inv(Apply(s, Store(t)))
  {
    var s', ticket := Apply(s, Store(t)), s.pushers[t].ticket;
    assert GoodPusher(s, t);
    CounterOf(ticket, s.size);
    forall c | s.published <= c < |s.jobs| ensures Claimed(s', c) { assert Claimed(s, c); }
    forall u | 0 <= u < |s.pushers| ensures GoodPusher(s', u) { assert GoodPusher(s, u); }
    forall c | s.taken <= c < |s.jobs| && Written(s', c) ensures s'.slots[c % s.size] == Some(s.jobs[c]) {
      if c != ticket {
        if c >= s.published { assert Claimed(s, c); }
        assert Written(s, c);
        if c < ticket { SameSlot(c, ticket, s.size); } else { SameSlot(ticket, c, s.size); }
      }
    }
  }

  /** The comparison of the published counter with the reserved one tells exactly whose turn it is. */
  lemma TurnIsTicket<T(!new)>(s: State<T>, t: nat)
    requires Inv(s) && t < |s.pushers| && s.pushers[t].HasTicket()
    ensures s.back == s.pushers[t].res <==> s.published == s.pushers[t].ticket
  {
    assert GoodPusher(s, t);
    SizeFits(s.size);
    SameSlot(s.published, s.pushers[t].ticket, WORD);
  }

  lemma PublishInv<T(!new)>(s: State<T>, t: nat)
    requires Inv(s) && Enabled(s, Publish(t))
    ensures Inv(Apply(s, Publish(t))) && s.published == s.pushers[t].ticket && s.jobs[s.published] == s.pushers[t].job
  {
    var s' := Apply(s, Publish(t));
    TurnIsTicket(s, t);
    assert GoodPusher(s, t);
    CounterNext(s.published);
    forall c | s'.published <= c < |s.jobs| ensures Claimed(s', c) { assert Claimed(s, c); }
    forall u | 0 <= u < |s.pushers| ensures GoodPusher(s', u) {
      assert GoodPusher(s, u);
      if u != t && s.pushers[u].HasTicket() { assert s.owner[s.pushers[u].ticket] == u; }
    }
    forall c | s.taken <= c < |s.jobs| && Written(s', c) ensures Written(s, c) {
      if c > s.published { assert Claimed(s, c); }
    }
  }

  /** A popper that goes on finds the oldest job in the slot; one that turns back saw an empty queue, or a full
      one. */
  lemma ReadSlotInv<T(!new)>(s: State<T>)
    requires Inv(s) && Enabled(s, ReadSlot)
    ensures Inv(Apply(s, ReadSlot))
    ensures LooksEmptyTo(s) <==> s.popper.at == s.taken || s.popper.at == s.taken + s.size
    ensures LooksEmptyTo(s) ==> Apply(s, ReadSlot).popper == Idle
    ensures !LooksEmptyTo(s) ==> s.Waiting() != [] && Apply(s, ReadSlot).popper == Read(s.Waiting()[0])
  {
    CounterOf(s.taken, s.size);
    CounterOf(s.popper.at, s.size);
    if s.popper.at < s.taken + s.size {
      SameSlot(s.taken, s.popper.at, s.size);
    } else {
      AddModulus(s.taken, s.size);
    }
    if s.taken < s.published { assert Written(s, s.taken); }
    PopperStep(s, Apply(s, ReadSlot));
  }

  lemma AdvanceInv<T(!new)>(s: State<T>)
    requires Inv(s) && Enabled(s, Advance)
    ensures Inv(Apply(s, Advance))
  {
    CounterNext(s.taken);
    PopperStep(s, Apply(s, Advance));
  }

  /** A step of the popper leaves the pushers and the slots alone. */
  lemma PopperStep<T(!new)>(s: State<T>, s': State<T>)
    requires Inv(s) && s'.pushers == s.pushers && s'.slots == s.slots && s'.jobs == s.jobs && s'.owner == s.owner
    requires s'.published == s.published && s.taken <= s'.taken
    ensures Claims(s') && GoodPushers(s') && Filled(s')
  {
    forall c | s.published <= c < |s.jobs| ensures Claimed(s', c) { assert Claimed(s, c); }
    forall u | 0 <= u < |s.pushers| ensures GoodPusher(s', u) { assert GoodPusher(s, u); }
    forall c | s'.taken <= c < |s.jobs| && Written(s', c) ensures s'.slots[c % |s.slots|] == Some(s.jobs[c]) {
      assert Written(s, c);
    }
  }

  lemma StepInv<T(!new)>(s: State<T>, e: Event<T>)
    requires Inv(s) && Enabled(s, e) && HasRoom(s, e)
    ensures Inv(Apply(s, e))
  {
    hide Claims, GoodPushers, Filled;
    match e
    case LoadRes(t, job) => QuietInv(s, t, Loaded(job, s.backRes));
    case LookFront(t) => QuietInv(s, t, Looked(s.pushers[t].job, s.pushers[t].res, s.front));
    case Reserve(t) => if Refuses(s, t) { QuietInv(s, t, Ready); } else { ReserveInv(s, t); }
    case Retry(t) => QuietInv(s, t, Loaded(s.pushers[t].job, s.backRes));
    case Store(t) => StoreInv(s, t);
    case Publish(t) => PublishInv(s, t);
    case LoadFront => PopperStep(s, Apply(s, e));
    case LoadBack => PopperStep(s, Apply(s, e));
    case ReadSlot => ReadSlotInv(s);
    case Advance => AdvanceInv(s);
  }

  /** A reservation that goes through keeps the invariant if and only if the ring is not full; on a full ring it is
      the slot of the oldest job that is reserved. */
  lemma ReserveExactly<T(!new)>(s: State<T>, t: nat)
    requires Inv(s) && Enabled(s, Reserve(t)) && !Refuses(s, t)
    ensures Inv(Apply(s, Reserve(t))) <==> |s.jobs| < s.taken + s.size
    ensures |s.jobs| >= s.taken + s.size ==> s.pushers[t].res % s.size == s.taken % s.size
  {
    CounterOf(|s.jobs|, s.size);
    if |s.jobs| < s.taken + s.size {
      ReserveInv(s, t);
    } else {
      AddModulus(s.taken, s.size);
    }
  }

  /** Every step leaves the waiting jobs alone, adds the publishing thread's job behind them, or takes the first. */
  lemma StepIsFifo<T(!new)>(s: State<T>, e: Event<T>)
    requires Inv(s) && Enabled(s, e)
    ensures var before, after := s.Waiting(), Apply(s, e).Waiting();
            match e
            case Publish(t) => after == before + [s.pushers[t].job]
            case Advance => before != [] && s.popper.job == before[0] && after == before[1..]
            case _ => after == before
  {
    hide Claims, GoodPushers, Filled, Refuses;
    if e.Publish? { PublishInv(s, e.t); }
  }

  ghost predicate IsRun<T(!new)>(s: State<T>, events: seq<Event<T>>)
    decreases |events|
  {
    events == [] || (Enabled(s, events[0]) && IsRun(Apply(s, events[0]), events[1..]))
  }

  ghost function Final<T(!new)>(s: State<T>, events: seq<Event<T>>): State<T>
    requires IsRun(s, events)
    decreases |events|
  {
    if events == [] then s else Final(Apply(s, events[0]), events[1..])
  }

  /** No place is ever reserved on a full ring; the written test does not see to that. */
  ghost predicate Roomy<T(!new)>(s: State<T>, events: seq<Event<T>>)
    requires IsRun(s, events)
    decreases |events|
  {
    events == [] || (HasRoom(s, events[0]) && Roomy(Apply(s, events[0]), events[1..]))
  }

  lemma {:induction false} EveryRun<T(!new)>(s: State<T>, events: seq<Event<T>>)
    requires Inv(s) && IsRun(s, events) && Roomy(s, events)
    decreases |events|
    ensures Inv(Final(s, events))
  {
    hide Inv, Enabled, Apply, HasRoom;
    if events != [] {
      StepInv(s, events[0]);
      EveryRun(Apply(s, events[0]), events[1..]);
    }
  }

  /** The jobs that are taken along a run. */
  ghost function Taken<T(!new)>(s: State<T>, events: seq<Event<T>>): seq<T>
    requires IsRun(s, events)
    decreases |events|
  {
    if events == [] then []
    else (if events[0].Advance? then [s.popper.job] else []) + Taken(Apply(s, events[0]), events[1..])
  }

  /** However the threads interleave, the jobs come out in the order in which their places were reserved, each
      once. */
  lemma {:induction false} TakenInOrder<T(!new)>(s: State<T>, events: seq<Event<T>>)
    requires Inv(s) && IsRun(s, events) && Roomy(s, events)
    decreases |events|
    ensures var last := Final(s, events);
            && s.taken <= last.taken <= |last.jobs| && s.jobs <= last.jobs
            && Taken(s, events) == last.jobs[s.taken..last.taken]
  {
    hide Inv, Enabled, Apply, HasRoom;
    if events == [] {
      TakenBounds(s);
    } else {
      StepInv(s, events[0]);
      TakenInOrder(Apply(s, events[0]), events[1..]);
      TakenStep(s, events[0]);
    }
  }

  lemma TakenBounds<T(!new)>(s: State<T>)
    requires Inv(s)
    ensures s.taken <= |s.jobs|
  {}

  lemma TakenStep<T(!new)>(s: State<T>, e: Event<T>)
    requires Inv(s) && Enabled(s, e)
    ensures var s' := Apply(s, e);
            && s.jobs <= s'.jobs && s'.taken == s.taken + (if e.Advance? then 1 else 0)
            && (e.Advance? ==> s.taken < |s.jobs| && s.popper.job == s.jobs[s.taken])
  {
    hide Claims, GoodPushers, Filled;
  }

  /** The written test refuses a job exactly if there seemed to be one slot left, in the last round of the counter: a
      ring with one free slot fills up, and then looks empty to the popper. */
  lemma TestExactly<T(!new)>(s: State<T>, t: nat)
    requires 2 <= s.size && WORD % s.size == 0 && t < |s.pushers| && s.pushers[t].Looked?
    requires Sub32(s.pushers[t].res, s.pushers[t].seen) <= s.size
    ensures Refuses(s, t) <==>
              Sub32(s.pushers[t].res, s.pushers[t].seen) == s.size - 1 && s.pushers[t].seen >= WORD - s.size
  {
    if Sub32(s.pushers[t].res, s.pushers[t].seen) < s.size {
      WrittenTest(s.pushers[t].seen, s.pushers[t].res, s.size);
    } else {
      FullTest(s.pushers[t].seen, s.pushers[t].res, s.size);
    }
  }

  // Progress

  /** While a place is reserved and not published, the thread with the oldest one can go on. */
  lemma SomebodyGoesOn<T(!new)>(s: State<T>)
    requires Inv(s) && s.published < |s.jobs|
    ensures var t := s.owner[s.published];
            && t < |s.pushers| && s.pushers[t].HasTicket()
            && Enabled(s, if s.pushers[t].Stored? then Publish(t) else Store(t))
  {
    assert Claimed(s, s.published);
    TurnIsTicket(s, s.owner[s.published]);
  }

  lemma ConsRun<T(!new)>(s: State<T>, e: Event<T>, rest: seq<Event<T>>)
    requires Enabled(s, e) && IsRun(Apply(s, e), rest)
    ensures IsRun(s, [e] + rest) && Final(s, [e] + rest) == Final(Apply(s, e), rest)
    ensures Taken(s, [e] + rest) == (if e.Advance? then [s.popper.job] else []) + Taken(Apply(s, e), rest)
  {
    hide Enabled, Apply;
    assert ([e] + rest)[1..] == rest;
  }

  lemma NoSteps<T(!new)>(s: State<T>)
    ensures IsRun(s, []) && Final(s, []) == s && Taken(s, []) == []
  {}

  lemma NotRefused<T(!new)>(s: State<T>, t: nat)
    requires Inv(s) && t < |s.pushers| && s.pushers[t].Looked? && |s.jobs| - s.taken < s.size - 1
    requires s.pushers[t].res == s.backRes && s.pushers[t].seen == s.front
    ensures !Refuses(s, t)
  {
    SizeFits(s.size);
    CounterDistance(s.taken, |s.jobs|, WORD);
    TestExactly(s, t);
  }

  /** A thread that is not disturbed adds its job behind those that wait, as long as two slots are left. */
  lemma {:induction false} PushAlone<T(!new)>(s: State<T>, t: nat, job: T, events: seq<Event<T>>)
    requires Inv(s) && t < |s.pushers| && s.pushers[t].Ready?
    requires s.published == |s.jobs| && |s.Waiting()| < s.size - 1
    requires events == [LoadRes(t, job), LookFront(t), Reserve(t), Store(t), Publish(t)]
    ensures IsRun(s, events)
    ensures var last := Final(s, events);
            last.Waiting() == s.Waiting() + [job] && |last.pushers| == |s.pushers| && last.pushers[t] == Ready
  {
    hide IsRun, Final, Taken, Inv, Refuses;
    PushCounts(s);
    var s1 := Apply(s, LoadRes(t, job));
    StepInv(s, LoadRes(t, job));
    var s2 := Apply(s1, LookFront(t));
    StepInv(s1, LookFront(t));
    NotRefused(s2, t);
    var s3 := Apply(s2, Reserve(t));
    var s4 := Apply(s3, Store(t));
    var s5 := Apply(s4, Publish(t));
    NoSteps(s5);
    var last := [Publish(t)] + [];
    ConsRun(s4, Publish(t), []);
    var two := [Store(t)] + last;
    ConsRun(s3, Store(t), last);
    var three := [Reserve(t)] + two;
    ConsRun(s2, Reserve(t), two);
    var four := [LookFront(t)] + three;
    ConsRun(s1, LookFront(t), three);
    ConsRun(s, LoadRes(t, job), four);
    assert events == [LoadRes(t, job)] + four;
  }

  lemma PushCounts<T(!new)>(s: State<T>)
    requires Inv(s)
    ensures s.size == |s.slots| >= 2 && s.taken <= s.published <= |s.jobs| && |s.Waiting()| == s.published - s.taken
    ensures s.published == |s.jobs| ==> s.back == s.backRes
  {}

  /** The two loads of a popper. */
  lemma PopperLoads<T(!new)>(s: State<T>) returns (s1: State<T>, s2: State<T>)
    requires Inv(s) && s.popper.Idle?
    ensures Enabled(s, LoadFront) && s1 == Apply(s, LoadFront)
    ensures Enabled(s1, LoadBack) && s2 == Apply(s1, LoadBack)
    ensures Inv(s2) && s2.popper.SawBoth? && s2.popper.at == s.published && s2.Waiting() == s.Waiting()
    ensures s2.taken == s.taken && s2.published == s.published && s2.size == s.size
  {
    hide Claims, GoodPushers, Filled;
    s1 := Apply(s, LoadFront);
    StepInv(s, LoadFront);
    s2 := Apply(s1, LoadBack);
    StepInv(s1, LoadBack);
  }

  /** What it does when nothing was published meanwhile. */
  lemma PopperReads<T(!new)>(s: State<T>, some: bool)
    requires Inv(s) && s.popper.SawBoth? && s.popper.at == s.published && some == (0 < |s.Waiting()| < s.size)
    ensures Enabled(s, ReadSlot) && Apply(s, ReadSlot).Waiting() == s.Waiting() && Inv(Apply(s, ReadSlot))
    ensures Apply(s, ReadSlot).popper == if some then Read(s.Waiting()[0]) else Idle
  {
    hide Claims, GoodPushers, Filled, LooksEmptyTo;
    PushCounts(s);
    ReadSlotInv(s);
    StepIsFifo(s, ReadSlot);
  }

  lemma PopperTakes<T(!new)>(s: State<T>, job: T)
    requires Inv(s) && s.popper == Read(job)
    ensures Enabled(s, Advance) && s.Waiting() != [] && job == s.Waiting()[0]
    ensures Apply(s, Advance).Waiting() == s.Waiting()[1..] && Apply(s, Advance).popper == Idle
  {
    hide Claims, GoodPushers, Filled;
    StepIsFifo(s, Advance);
  }

  /** A popper that is not disturbed takes the oldest job; if there is none, or the ring has filled up, it turns
      back. */
  lemma {:induction false} PopAlone<T(!new)>(s: State<T>, some: bool, events: seq<Event<T>>)
    requires Inv(s) && s.popper.Idle? && some == (0 < |s.Waiting()| < s.size)
    requires events == [LoadFront, LoadBack, ReadSlot] + if some then [Advance] else []
    ensures IsRun(s, events) && Final(s, events).popper == Idle
    ensures Taken(s, events) == (if some then [s.Waiting()[0]] else [])
    ensures Final(s, events).Waiting() == if some then s.Waiting()[1..] else s.Waiting()
  {
    hide IsRun, Final, Taken, Inv, Enabled, Apply;
    var s1, s2 := PopperLoads(s);
    PopperReads(s2, some);
    var s3 := Apply(s2, ReadSlot);
    var last: seq<Event<T>> := if some then [Advance] else [];
    NoSteps(s3);
    if some {
      PopperTakes(s3, s3.popper.job);
      NoSteps(Apply(s3, Advance));
      ConsRun(s3, Advance, []);
      assert [Advance] + [] == last;
    }
    ConsRun(s2, ReadSlot, last);
    ConsRun(s1, LoadBack, [ReadSlot] + last);
    ConsRun(s, LoadFront, [LoadBack] + ([ReadSlot] + last));
    assert events == [LoadFront] + ([LoadBack] + ([ReadSlot] + last));
  }

  // The publish loop as it is written

  /** One attempt: the compare-and-swap that fails overwrites the index it expects. */
  function Attempt<T>(s: State<T>, t: nat): State<T>
    requires t < |s.pushers| && s.pushers[t].Stored?
  {
    if s.back == s.pushers[t].res then Published(s, t)
    else s.(pushers := s.pushers[t := s.pushers[t].(res := s.back)])
  }

  ghost predicate WrittenEnabled<T>(s: State<T>, e: Event<T>) {
    if e.Publish? then s.size == |s.slots| > 0 && e.t < |s.pushers| && s.pushers[e.t].Stored? else Enabled(s, e)
  }

  ghost function WrittenApply<T>(s: State<T>, e: Event<T>): State<T>
    requires WrittenEnabled(s, e)
  {
    if e.Publish? then Attempt(s, e.t) else Apply(s, e)
  }

  ghost predicate IsWrittenRun<T(!new)>(s: State<T>, events: seq<Event<T>>)
    decreases |events|
  {
    events == [] || (WrittenEnabled(s, events[0]) && IsWrittenRun(WrittenApply(s, events[0]), events[1..]))
  }

  ghost function WrittenFinal<T(!new)>(s: State<T>, events: seq<Event<T>>): State<T>
    requires IsWrittenRun(s, events)
    decreases |events|
  {
    if events == [] then s else WrittenFinal(WrittenApply(s, events[0]), events[1..])
  }

  /** An attempt is a publication in turn if and only if it is this thread's turn. Otherwise the thread takes the index
      of another, and its next attempt publishes that one's place, whether its job is stored or not. */
  lemma AttemptExactly<T(!new)>(s: State<T>, t: nat)
    requires Inv(s) && t < |s.pushers| && s.pushers[t].Stored?
    ensures s.published == s.pushers[t].ticket <==> Enabled(s, Publish(t)) && Attempt(s, t) == Apply(s, Publish(t))
    ensures s.published != s.pushers[t].ticket ==>
              && s.published < |s.jobs| && s.owner[s.published] != t
              && var after := Attempt(Attempt(s, t), t);
                 && after.slots == s.slots && after.published == s.published + 1
                 && after.back == (s.published + 1) % WORD
  {
    TurnIsTicket(s, t);
    assert GoodPusher(s, t);
    CounterNext(s.published);
    if s.published != s.pushers[t].ticket { assert Claimed(s, s.published); }
  }

  /** Pushes do not overlap: at most one thread has a place that is not published. */
  ghost predicate OnePusher<T>(s: State<T>) {
    forall t, u :: 0 <= t < |s.pushers| && 0 <= u < |s.pushers| && s.pushers[t].HasTicket() && s.pushers[u].HasTicket()
                   ==> t == u
  }

  ghost predicate Serialized<T(!new)>(s: State<T>, events: seq<Event<T>>)
    requires IsWrittenRun(s, events)
    decreases |events|
  {
    OnePusher(s)
    && (events == [] || (HasRoom(s, events[0]) && Serialized(WrittenApply(s, events[0]), events[1..])))
  }

  lemma WrittenStep<T(!new)>(s: State<T>, e: Event<T>)
    requires Inv(s) && OnePusher(s) && WrittenEnabled(s, e)
    ensures Enabled(s, e) && WrittenApply(s, e) == Apply(s, e)
  {
    if e.Publish? {
      assert GoodPusher(s, e.t) && Claimed(s, s.published);
      AttemptExactly(s, e.t);
    }
  }

  /** Every run of the loop as it is written in which pushes do not overlap and the ring is never full is a run of the
      protocol, so everything proved of those runs holds of it. */
  lemma {:induction false} SerializedRuns<T(!new)>(s: State<T>, events: seq<Event<T>>)
    requires Inv(s) && IsWrittenRun(s, events) && Serialized(s, events)
    decreases |events|
    ensures IsRun(s, events) && Roomy(s, events)
    ensures WrittenFinal(s, events) == Final(s, events) && Inv(WrittenFinal(s, events))
  {
    hide Inv, OnePusher, WrittenEnabled, WrittenApply, Enabled, Apply, HasRoom;
    if events != [] {
      WrittenStep(s, events[0]);
      StepInv(s, events[0]);
      SerializedRuns(Apply(s, events[0]), events[1..]);
    }
  }

  lemma {:induction false} WrittenPush<T(!new)>(s: State<T>, events: seq<Event<T>>, e: Event<T>)
    requires IsWrittenRun(s, events) && WrittenEnabled(WrittenFinal(s, events), e)
    decreases |events|
    ensures IsWrittenRun(s, events + [e])
    ensures WrittenFinal(s, events + [e]) == WrittenApply(WrittenFinal(s, events), e)
  {
    hide WrittenEnabled, WrittenApply;
    if events == [] {
      assert [e][1..] == [];
    } else {
      assert (events + [e])[1..] == events[1..] + [e];
      WrittenPush(WrittenApply(s, events[0]), events[1..], e);
    }
  }

  /** Two threads reserve a place each, and the second stores its job first. */
  lemma {:induction false} SecondStores<T(!new)>(a: T, b: T) returns (events: seq<Event<T>>, s: State<T>)
    ensures IsWrittenRun(Initial<T>(4, 2), events) && s == WrittenFinal(Initial<T>(4, 2), events)
    ensures s == State(4, [None, Some(b), None, None], 0, 0, 2, [Reserved(a, 0, 0), Stored(b, 1, 1)], Idle, [a, b],
                       [0, 1], 0, 0)
  {
    hide IsWrittenRun, WrittenFinal;
    events, s := [], Initial<T>(4, 2);
    assert IsWrittenRun(s, events) && s == WrittenFinal(s, events) by { NoEvents(s); }
    var more := [LoadRes(0, a), LookFront(0), Reserve(0), LoadRes(1, b), LookFront(1), Reserve(1), Store(1)];
    assert s.pushers == [Ready, Ready] && s.slots == [None, None, None, None];
    events, s := Push(events, s, more[0]);
    events, s := Push(events, s, more[1]);
    events, s := Push(events, s, more[2]);
    assert s.pushers == [Reserved(a, 0, 0), Ready] && s.backRes == 1;
    events, s := Push(events, s, more[3]);
    events, s := Push(events, s, more[4]);
    events, s := Push(events, s, more[5]);
    assert s.pushers == [Reserved(a, 0, 0), Reserved(b, 1, 1)] && s.backRes == 2;
    events, s := Push(events, s, more[6]);
  }

  lemma NoEvents<T(!new)>(s: State<T>)
    ensures IsWrittenRun(s, []) && WrittenFinal(s, []) == s
  {}

  lemma {:induction false} Push<T(!new)>(events: seq<Event<T>>, s: State<T>, e: Event<T>)
    returns (events': seq<Event<T>>, s': State<T>)
    requires IsWrittenRun(Initial<T>(4, 2), events) && s == WrittenFinal(Initial<T>(4, 2), events)
    requires WrittenEnabled(s, e)
    ensures IsWrittenRun(Initial<T>(4, 2), events') && s' == WrittenFinal(Initial<T>(4, 2), events')
    ensures s' == WrittenApply(s, e)
  {
    hide IsWrittenRun, WrittenFinal, WrittenEnabled, WrittenApply;
    WrittenPush(Initial<T>(4, 2), events, e);
    events', s' := events + [e], WrittenApply(s, e);
  }

  /** With two threads that add jobs a run of the loop as it is written publishes a slot nobody has filled, and the
      popper goes on to read it. */
  lemma {:induction false} WrittenLoopFails<T(!new)>(a: T, b: T) returns (events: seq<Event<T>>, s: State<T>)
    ensures IsWrittenRun(Initial<T>(4, 2), events) && s == WrittenFinal(Initial<T>(4, 2), events)
    ensures s.size == |s.slots| == 4 && s.popper.SawBoth? && !LooksEmptyTo(s)
    ensures s.slots[s.popper.front % s.size] == None
  {
    hide IsWrittenRun, WrittenFinal;
    events, s := SecondStores(a, b);
    events, s := Push(events, s, Publish(1));
    assert s.pushers == [Reserved(a, 0, 0), Stored(b, 0, 1)];
    events, s := Push(events, s, Publish(1));
    assert s.back == 1;
    events, s := Push(events, s, LoadFront);
    events, s := Push(events, s, LoadBack);
  }
}
