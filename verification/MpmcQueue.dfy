/** The bounded queue of many producers and consumers, one atomic access per step. Positions and sequence numbers are
    unbounded here. */
module MpmcQueue {
  import opened Rings
  import opened Finite
  import opened Streams

  datatype Cell<T> = Cell(sequence: nat, data: Option<T>)

  /** How far a thread is in a call. */
  datatype Thread<T> =
    | Idle
    | EnqStart(value: T)
    | EnqAt(pos: nat, value: T)
    | EnqTry(pos: nat, value: T)
    | EnqOwn(pos: nat, value: T, stored: bool)
    | DeqStart
    | DeqAt(pos: nat)
    | DeqTry(pos: nat)
    | DeqOwn(pos: nat)
    | DeqRead(pos: nat, value: T)
    | ProbeStart
    | Probe(front: nat)
    | Probed(front: nat, back: nat)

  /** The queue and its threads; and, for the proof, every value by its ticket, what was read under which ticket, and
      who drew it. */
  datatype State<T> = State(
    cells: seq<Cell<T>>,
    enqueuePos: nat,
    dequeuePos: nat,
    threads: seq<Thread<T>>,
    values: seq<T>,
    results: map<nat, T>,
    enqueuedBy: seq<nat>,
    dequeuedBy: seq<nat>)

  datatype Event<T> =
    | Enqueue(value: T)
    | Dequeue
    | IsEmpty
    | LoadPosition
    | LoadSequence
    | CompareExchange(spurious: bool)
    | MoveData
    | StoreSequence
    | LoadBack
    | LoadFrontAgain

  /** The cell of a position; `pos & mask` in the source, with a power of two as size. */
  function Index(pos: nat, size: nat): (k: nat)
    requires size > 0
    ensures k < size
  {
    pos % size
  }

  function CellOf<T>(s: State<T>, pos: nat): Cell<T>
    requires |s.cells| > 0
  {
    s.cells[Index(pos, |s.cells|)]
  }

  function SetThread<T>(s: State<T>, t: nat, to: Thread<T>): (after: State<T>)
    requires t < |s.threads|
    ensures |after.threads| == |s.threads|
    ensures forall u :: 0 <= u < |s.threads| ==> after.threads[u] == if u == t then to else s.threads[u]
    ensures after == s.(threads := after.threads)
  {
    s.(threads := s.threads[t := to])
  }

  predicate Enabled<T(!new)>(s: State<T>, t: nat, e: Event<T>) {
    |s.cells| > 0 && t < |s.threads| &&
    match e
    case Enqueue(_) => s.threads[t].Idle?
    case Dequeue => s.threads[t].Idle?
    case IsEmpty => s.threads[t].Idle?
    case LoadPosition => s.threads[t].EnqStart? || s.threads[t].DeqStart? || s.threads[t].ProbeStart?
    case LoadSequence => s.threads[t].EnqAt? || s.threads[t].DeqAt?
    case CompareExchange(_) => s.threads[t].EnqTry? || s.threads[t].DeqTry?
    case MoveData => (s.threads[t].EnqOwn? && !s.threads[t].stored)
                     || (s.threads[t].DeqOwn? && CellOf(s, s.threads[t].pos).data.Some?)
    case StoreSequence => (s.threads[t].EnqOwn? && s.threads[t].stored) || s.threads[t].DeqRead?
    case LoadBack => s.threads[t].Probe?
    case LoadFrontAgain => s.threads[t].Probed?
  }

  function Apply<T(!new)>(s: State<T>, t: nat, e: Event<T>): State<T>
    requires Enabled(s, t, e)
  {
    match e
    case Enqueue(v) => SetThread(s, t, EnqStart(v))
    case Dequeue => SetThread(s, t, DeqStart)
    case IsEmpty => SetThread(s, t, ProbeStart)
    case LoadPosition =>
      var th := s.threads[t];
      SetThread(s, t,
        if th.EnqStart? then EnqAt(s.enqueuePos, th.value)
        else if th.DeqStart? then DeqAt(s.dequeuePos)
        else Probe(s.enqueuePos))
    case LoadSequence =>
      var th := s.threads[t];
      var sequence := CellOf(s, th.pos).sequence;
      if th.EnqAt? then
        SetThread(s, t,
          if sequence == th.pos then EnqTry(th.pos, th.value)
          else if sequence < th.pos then Idle
          else EnqStart(th.value))
      else
        SetThread(s, t,
          if sequence == th.pos + 1 then DeqTry(th.pos)
          else if sequence < th.pos + 1 then Idle
          else DeqStart)
    case CompareExchange(spurious) =>
      var th := s.threads[t];
      if th.EnqTry? then
        if s.enqueuePos == th.pos && !spurious then
          SetThread(s, t, EnqOwn(th.pos, th.value, false))
            .(enqueuePos := th.pos + 1, values := s.values + [th.value], enqueuedBy := s.enqueuedBy + [t])
        else SetThread(s, t, EnqAt(s.enqueuePos, th.value))
      else
        if s.dequeuePos == th.pos && !spurious then
          SetThread(s, t, DeqOwn(th.pos)).(dequeuePos := th.pos + 1, dequeuedBy := s.dequeuedBy + [t])
        else SetThread(s, t, DeqAt(s.dequeuePos))
    case MoveData =>
      var th := s.threads[t];
      var k := Index(th.pos, |s.cells|);
      if th.EnqOwn? then
        SetThread(s, t, EnqOwn(th.pos, th.value, true)).(cells := s.cells[k := s.cells[k].(data := Some(th.value))])
      else
        SetThread(s, t, DeqRead(th.pos, s.cells[k].data.value)).(results := s.results[th.pos := s.cells[k].data.value])
    case StoreSequence =>
      var th := s.threads[t];
      var k := Index(th.pos, |s.cells|);
      var sequence := if th.EnqOwn? then th.pos + 1 else th.pos + |s.cells|;
      SetThread(s, t, Idle).(cells := s.cells[k := s.cells[k].(sequence := sequence)])
    case LoadBack =>
      SetThread(s, t, Probed(s.threads[t].front, s.dequeuePos))
    case LoadFrontAgain =>
      SetThread(s, t, if s.enqueuePos == s.threads[t].front then Idle else ProbeStart)
  }

  // The invariant

  ghost predicate Counted<T>(s: State<T>) {
    && |s.cells| >= 2
    && s.dequeuePos <= s.enqueuePos <= s.dequeuePos + |s.cells|
    && |s.values| == |s.enqueuedBy| == s.enqueuePos && |s.dequeuedBy| == s.dequeuePos
    && forall k :: k in s.results ==> k < s.dequeuePos && s.results[k] == s.values[k]
  }

  /** Ticket `c` is drawn and its value not yet announced. */
  ghost predicate Filling<T>(s: State<T>, c: nat)
    requires c < |s.enqueuedBy|
  {
    var t := s.enqueuedBy[c];
    t < |s.threads| && s.threads[t].EnqOwn? && s.threads[t].pos == c
  }

  /** The value of ticket `c` is being taken out. */
  ghost predicate Draining<T>(s: State<T>, c: nat)
    requires c < |s.dequeuedBy|
  {
    var t := s.dequeuedBy[c];
    t < |s.threads| && (s.threads[t].DeqOwn? || s.threads[t].DeqRead?) && s.threads[t].pos == c
  }

  /** The cell that ticket `x` is to use next: it is free for it, or still busy with ticket `x - size`. */
  ghost predicate CellOk<T>(s: State<T>, x: nat)
    requires Counted(s) && s.enqueuePos <= x < s.enqueuePos + |s.cells|
  {
    var n := |s.cells|;
    if x < n then CellOf(s, x).sequence == x
    else
      var c := x - n;
      if c >= s.dequeuePos then
        if Filling(s, c) then CellOf(s, x).sequence == c
        else CellOf(s, x).sequence == c + 1 && CellOf(s, x).data == Some(s.values[c])
      else
        if Draining(s, c) then
          CellOf(s, x).sequence == c + 1
          && (s.threads[s.dequeuedBy[c]].DeqOwn? ==> CellOf(s, x).data == Some(s.values[c]) && c !in s.results)
        else CellOf(s, x).sequence == x
  }

  ghost predicate GoodThread<T>(s: State<T>, t: nat)
    requires Counted(s) && t < |s.threads|
  {
    var n := |s.cells|;
    match s.threads[t]
    case Idle => true
    case EnqStart(_) => true
    case DeqStart => true
    case ProbeStart => true
    case EnqAt(pos, _) => pos <= s.enqueuePos
    case EnqTry(pos, _) => pos <= s.enqueuePos && (pos == s.enqueuePos ==> CellOf(s, pos).sequence == pos)
    case EnqOwn(pos, value, stored) =>
      && s.dequeuePos <= pos < s.enqueuePos && s.enqueuedBy[pos] == t && s.values[pos] == value
      && (stored ==> CellOf(s, pos).data == Some(value))
    case DeqAt(pos) => pos <= s.dequeuePos
    case DeqTry(pos) => pos <= s.dequeuePos && (pos == s.dequeuePos ==> CellOf(s, pos).sequence == pos + 1)
    case DeqOwn(pos) => pos < s.dequeuePos && s.enqueuePos <= pos + n && s.dequeuedBy[pos] == t
    case DeqRead(pos, value) =>
      && pos < s.dequeuePos && s.enqueuePos <= pos + n && s.dequeuedBy[pos] == t
      && pos in s.results && s.results[pos] == value
    case Probe(front) => front <= s.enqueuePos
    case Probed(front, _) => front <= s.enqueuePos
  }

  ghost predicate Inv<T>(s: State<T>) {
    && Counted(s)
    && (forall x :: s.enqueuePos <= x < s.enqueuePos + |s.cells| ==> CellOk(s, x))
    && (forall t :: 0 <= t < |s.threads| ==> GoodThread(s, t))
  }

  lemma Cells<T(!new)>(s: State<T>, x: nat)
    requires Inv(s) && s.enqueuePos <= x < s.enqueuePos + |s.cells|
    ensures CellOk(s, x)
    ensures x >= |s.cells| ==> CellOf(s, x) == CellOf(s, x - |s.cells|)
  {
    if x >= |s.cells| { AddModulus(x - |s.cells|, |s.cells|); }
  }

  /** The cell of a ticket that a thread holds. */
  lemma OwnCell<T(!new)>(s: State<T>, t: nat)
    requires Inv(s) && t < |s.threads|
    ensures var th := s.threads[t];
            && (th.EnqOwn? ==> th.pos < s.enqueuePos && CellOf(s, th.pos).sequence == th.pos && Filling(s, th.pos))
            && (th.DeqOwn? ==> th.pos < s.dequeuePos && th.pos !in s.results && Draining(s, th.pos)
                               && CellOf(s, th.pos) == Cell(th.pos + 1, Some(s.values[th.pos])))
            && (th.DeqRead? ==> th.pos < s.dequeuePos && Draining(s, th.pos)
                                && CellOf(s, th.pos).sequence == th.pos + 1)
  {
    var th := s.threads[t];
    assert GoodThread(s, t);
    if th.EnqOwn? || th.DeqOwn? || th.DeqRead? { Cells(s, th.pos + |s.cells|); }
  }

  /** A thread that found its sequence number draws its ticket only while that is still the number. */
  lemma EnqueueDraws<T(!new)>(s: State<T>, t: nat)
    requires Inv(s) && t < |s.threads| && s.threads[t].EnqTry? && s.threads[t].pos == s.enqueuePos
    ensures s.enqueuePos < s.dequeuePos + |s.cells|
    ensures CellOf(s, s.enqueuePos).sequence == s.enqueuePos
  {
    assert GoodThread(s, t);
    Cells(s, s.enqueuePos);
  }

  lemma DequeueDraws<T(!new)>(s: State<T>, t: nat)
    requires Inv(s) && t < |s.threads| && s.threads[t].DeqTry? && s.threads[t].pos == s.dequeuePos
    ensures s.dequeuePos < s.enqueuePos
    ensures CellOf(s, s.dequeuePos) == Cell(s.dequeuePos + 1, Some(s.values[s.dequeuePos]))
    ensures !Filling(s, s.dequeuePos)
  {
    assert GoodThread(s, t);
    Cells(s, s.dequeuePos + if s.dequeuePos < s.enqueuePos then |s.cells| else 0);
  }

  ghost predicate Quiet<T(!new)>(s: State<T>, s': State<T>, t: nat) {
    && Inv(s) && t < |s.threads| == |s'.threads|
    && s' == s.(threads := s'.threads)
    && (forall u :: 0 <= u < |s.threads| && u != t ==> s'.threads[u] == s.threads[u])
    && !s.threads[t].EnqOwn? && !s.threads[t].DeqOwn? && !s.threads[t].DeqRead?
    && GoodThread(s', t)
    && !s'.threads[t].EnqOwn? && !s'.threads[t].DeqOwn? && !s'.threads[t].DeqRead?
  }

  /** Steps that only read. */
  lemma QuietInv<T(!new)>(s: State<T>, s': State<T>, t: nat)
    requires Quiet(s, s', t)
    ensures Inv(s')
  {
    forall x | s.enqueuePos <= x < s.enqueuePos + |s.cells| ensures CellOk(s', x) { assert CellOk(s, x); }
    forall u | 0 <= u < |s.threads| ensures GoodThread(s', u) { assert GoodThread(s, u); }
  }

  lemma ReadingInv<T(!new)>(s: State<T>, t: nat, e: Event<T>)
    requires Inv(s) && Enabled(s, t, e)
    requires !e.CompareExchange? && !e.MoveData? && !e.StoreSequence?
    ensures Inv(Apply(s, t, e))
  {
    var s' := Apply(s, t, e);
    assert GoodThread(s, t);
    assert GoodThread(s', t);
    QuietInv(s, s', t);
  }

  lemma EnqueueDrawnInv<T(!new)>(s: State<T>, t: nat)
    requires Inv(s) && Enabled(s, t, CompareExchange(false))
    requires s.threads[t].EnqTry? && s.enqueuePos == s.threads[t].pos
    ensures Inv(Apply(s, t, CompareExchange(false)))
  {
    var s' := Apply(s, t, CompareExchange(false));
    var n := |s.cells|;
    EnqueueDraws(s, t);
    forall x | s'.enqueuePos <= x < s'.enqueuePos + n ensures CellOk(s', x) {
      if x < s.enqueuePos + n {
        assert CellOk(s, x);
        if x >= n && x - n < s.enqueuePos { SameTickets(s, s', t, x - n); }
      } else {
        AddModulus(s.enqueuePos, n);
        assert Filling(s', s.enqueuePos);
      }
    }
    forall u | 0 <= u < n + |s.threads| && u < |s.threads| ensures GoodThread(s', u) {
      assert GoodThread(s, u);
      OwnCell(s, u);
      if u != t && (s.threads[u].DeqOwn? || s.threads[u].DeqRead?) && s.enqueuePos == s.threads[u].pos + n {
        AddModulus(s.threads[u].pos, n);
      }
    }
  }

  /** What the other threads hold stays. */
  lemma SameTickets<T(!new)>(s: State<T>, s': State<T>, t: nat, c: nat)
    requires |s.threads| == |s'.threads| && t < |s.threads|
    requires forall u :: 0 <= u < |s.threads| && u != t ==> s'.threads[u] == s.threads[u]
    requires c < |s.enqueuedBy| && s.enqueuedBy <= s'.enqueuedBy && s.dequeuedBy <= s'.dequeuedBy
    requires s.threads[t].EnqTry? || s.threads[t].DeqTry?
    requires s'.threads[t].EnqOwn? || s'.threads[t].DeqOwn?
    requires s'.threads[t].EnqOwn? ==> s'.threads[t].pos >= |s.enqueuedBy|
    requires s'.threads[t].DeqOwn? ==> s'.threads[t].pos >= |s.dequeuedBy|
    ensures Filling(s', c) <==> Filling(s, c)
    ensures c < |s.dequeuedBy| ==> (Draining(s', c) <==> Draining(s, c))
  {}

  lemma DequeueDrawnInv<T(!new)>(s: State<T>, t: nat)
    requires Inv(s) && Enabled(s, t, CompareExchange(false))
    requires s.threads[t].DeqTry? && s.dequeuePos == s.threads[t].pos
    ensures Inv(Apply(s, t, CompareExchange(false)))
  {
    var s' := Apply(s, t, CompareExchange(false));
    var n := |s.cells|;
    DequeueDraws(s, t);
    forall x | s'.enqueuePos <= x < s'.enqueuePos + n ensures CellOk(s', x) {
      Cells(s, x);
      if x >= n { SameTickets(s, s', t, x - n); }
    }
    forall u | 0 <= u < |s.threads| ensures GoodThread(s', u) {
      assert GoodThread(s, u);
      OwnCell(s, u);
    }
  }

  lemma FailedDrawInv<T(!new)>(s: State<T>, t: nat, spurious: bool)
    requires Inv(s) && Enabled(s, t, CompareExchange(spurious))
    requires spurious || (if s.threads[t].EnqTry? then s.enqueuePos else s.dequeuePos) != s.threads[t].pos
    ensures Inv(Apply(s, t, CompareExchange(spurious)))
  {
    QuietInv(s, Apply(s, t, CompareExchange(spurious)), t);
  }

  lemma NextRound(pos: nat, size: nat)
    requires size > 0
    ensures Index(pos + size, size) == Index(pos, size)
  {
    AddModulus(pos, size);
  }

  /** Two tickets in use at the same time have different cells. */
  lemma OtherCell<T(!new)>(s: State<T>, a: nat, b: nat)
    requires |s.cells| > 0 && a != b && a < b + |s.cells| && b < a + |s.cells|
    ensures Index(a, |s.cells|) != Index(b, |s.cells|)
  {
    if a <= b { SameSlot(a, b, |s.cells|); } else { SameSlot(b, a, |s.cells|); }
  }

  lemma StoreValueInv<T(!new)>(s: State<T>, t: nat)
    requires Inv(s) && Enabled(s, t, MoveData) && s.threads[t].EnqOwn?
    ensures Inv(Apply(s, t, MoveData))
  {
    hide Index;
    var s' := Apply(s, t, MoveData);
    var n := |s.cells|;
    var pos := s.threads[t].pos;
    OwnCell(s, t);
    assert GoodThread(s, t);
    forall x | s.enqueuePos <= x < s.enqueuePos + n ensures CellOk(s', x) {
      Cells(s, x);
      Cells(s, pos + n);
      NextRound(pos, n);
      if x != pos + n { OtherCell(s, x, pos + n); }
    }
    forall u | 0 <= u < |s.threads| ensures GoodThread(s', u) {
      assert GoodThread(s, u);
      if u != t && s.threads[u].EnqOwn? { OtherCell(s, s.threads[u].pos, pos); }
    }
  }

  lemma ReadValueInv<T(!new)>(s: State<T>, t: nat)
    requires Inv(s) && Enabled(s, t, MoveData) && s.threads[t].DeqOwn?
    ensures Inv(Apply(s, t, MoveData))
  {
    hide Index;
    var s' := Apply(s, t, MoveData);
    var n := |s.cells|;
    var pos := s.threads[t].pos;
    OwnCell(s, t);
    assert GoodThread(s, t);
    forall x | s.enqueuePos <= x < s.enqueuePos + n ensures CellOk(s', x) {
      Cells(s, x);
    }
    forall u | 0 <= u < |s.threads| ensures GoodThread(s', u) { assert GoodThread(s, u); }
  }

  lemma StoreSequenceCells<T(!new)>(s: State<T>, t: nat)
    requires Inv(s) && Enabled(s, t, StoreSequence)
    ensures Counted(Apply(s, t, StoreSequence))
    ensures forall x :: s.enqueuePos <= x < s.enqueuePos + |s.cells| ==> CellOk(Apply(s, t, StoreSequence), x)
  {
    hide Index;
    var s' := Apply(s, t, StoreSequence);
    var n := |s.cells|;
    var pos := s.threads[t].pos;
    OwnCell(s, t);
    assert GoodThread(s, t);
    forall x | s.enqueuePos <= x < s.enqueuePos + n ensures CellOk(s', x) {
      Cells(s, x);
      Cells(s, pos + n);
      NextRound(pos, n);
      if x != pos + n { OtherCell(s, x, pos + n); }
    }
  }

  lemma StoreSequenceInv<T(!new)>(s: State<T>, t: nat)
    requires Inv(s) && Enabled(s, t, StoreSequence)
    ensures Inv(Apply(s, t, StoreSequence))
  {
    hide Index;
    var s' := Apply(s, t, StoreSequence);
    var n := |s.cells|;
    var pos := s.threads[t].pos;
    OwnCell(s, t);
    assert GoodThread(s, t);
    StoreSequenceCells(s, t);
    forall u | 0 <= u < |s.threads| ensures GoodThread(s', u) {
      assert GoodThread(s, u);
      if u != t { StoreElsewhere(s, t, u); }
    }
  }

  /** The cell another thread has looked at is not the one whose sequence number is stored, or its look is stale. */
  lemma StoreElsewhere<T(!new)>(s: State<T>, t: nat, u: nat)
    requires Inv(s) && Enabled(s, t, StoreSequence) && u < |s.threads| && u != t
    ensures var th := s.threads[u];
            (th.EnqTry? && th.pos == s.enqueuePos) || (th.DeqTry? && th.pos == s.dequeuePos) || th.EnqOwn?
            ==> Index(th.pos, |s.cells|) != Index(s.threads[t].pos, |s.cells|)
  {
    hide Index;
    var th := s.threads[u];
    var pos := s.threads[t].pos;
    OwnCell(s, t);
    OwnCell(s, u);
    assert GoodThread(s, t) && GoodThread(s, u);
    if th.EnqTry? && th.pos == s.enqueuePos {
      EnqueueDraws(s, u);
      if s.enqueuePos < pos + |s.cells| { OtherCell(s, th.pos, pos); }
    } else if th.DeqTry? && th.pos == s.dequeuePos {
      DequeueDraws(s, u);
      if pos != th.pos { OtherCell(s, th.pos, pos); }
    } else if th.EnqOwn? {
      OtherCell(s, th.pos, pos);
    }
  }

  lemma StepInv<T(!new)>(s: State<T>, t: nat, e: Event<T>)
    requires Inv(s) && Enabled(s, t, e)
    ensures Inv(Apply(s, t, e))
  {
    hide Inv, Apply;
    if e.CompareExchange? {
      if e.spurious || (if s.threads[t].EnqTry? then s.enqueuePos else s.dequeuePos) != s.threads[t].pos {
        FailedDrawInv(s, t, e.spurious);
      } else if s.threads[t].EnqTry? {
        EnqueueDrawnInv(s, t);
      } else {
        DequeueDrawnInv(s, t);
      }
    } else if e.MoveData? {
      if s.threads[t].EnqOwn? { StoreValueInv(s, t); } else { ReadValueInv(s, t); }
    } else if e.StoreSequence? {
      StoreSequenceInv(s, t);
    } else {
      ReadingInv(s, t, e);
    }
  }

  /** An empty queue of `size` cells and idle threads; the source requires a power of two of at least 2. */
  ghost function Initial<T(!new)>(size: nat, threads: nat): State<T> {
    State(seq(size, i requires 0 <= i => Cell(i, None)), 0, 0, Repeat(Idle, threads), [], map[], [], [])
  }

  lemma InitialInv<T(!new)>(size: nat, threads: nat)
    requires size >= 2
    ensures Inv(Initial<T>(size, threads))
  {
    var s := Initial<T>(size, threads);
    forall x | 0 <= x < size ensures CellOk(s, x) { SmallRemainder(x, size); }
  }

  type Step<T> = (nat, Event<T>)

  ghost predicate IsRun<T(!new)>(s: State<T>, steps: seq<Step<T>>)
    decreases |steps|
  {
    steps == []
    || (Enabled(s, steps[0].0, steps[0].1) && IsRun(Apply(s, steps[0].0, steps[0].1), steps[1..]))
  }

  ghost function Final<T(!new)>(s: State<T>, steps: seq<Step<T>>): State<T>
    requires IsRun(s, steps)
    decreases |steps|
  {
    if steps == [] then s else Final(Apply(s, steps[0].0, steps[0].1), steps[1..])
  }

  lemma {:induction false} EveryRun<T(!new)>(s: State<T>, steps: seq<Step<T>>)
    requires Inv(s) && IsRun(s, steps)
    decreases |steps|
    ensures Inv(Final(s, steps))
  {
    hide Inv, Enabled, Apply;
    if steps != [] {
      StepInv(s, steps[0].0, steps[0].1);
      EveryRun(Apply(s, steps[0].0, steps[0].1), steps[1..]);
    }
  }

  // What the invariant means

  /** What is in the queue: the values of the tickets drawn by producers but not yet by consumers. */
  ghost function Contents<T(!new)>(s: State<T>): (q: seq<T>)
    requires Counted(s)
  {
    s.values[s.dequeuePos..]
  }

  /** Every step is a step of a first-in first-out queue of bounded length: drawing a producer's ticket appends the
      value, drawing a consumer's ticket removes the oldest value, and everything else changes nothing. */
  lemma RefinesFifo<T(!new)>(s: State<T>, t: nat, e: Event<T>)
    requires Inv(s) && Enabled(s, t, e)
    ensures Counted(Apply(s, t, e)) && |Contents(s)| <= |s.cells|
    ensures var s', th := Apply(s, t, e), s.threads[t];
            if e == CompareExchange(false) && th.EnqTry? && th.pos == s.enqueuePos then
              |Contents(s)| < |s.cells| && Contents(s') == Contents(s) + [th.value]
            else if e == CompareExchange(false) && th.DeqTry? && th.pos == s.dequeuePos then
              Contents(s) != [] && Contents(s') == Contents(s)[1..] && s'.threads[t] == DeqOwn(th.pos)
            else Contents(s') == Contents(s)
  {
    StepInv(s, t, e);
    if e == CompareExchange(false) && s.threads[t].EnqTry? && s.threads[t].pos == s.enqueuePos { EnqueueDraws(s, t); }
    if e == CompareExchange(false) && s.threads[t].DeqTry? && s.threads[t].pos == s.dequeuePos { DequeueDraws(s, t); }
  }

  /** In every run what is read under consumer ticket `k` is what was stored under producer ticket `k`. It is read
      when its step sets it, and never again. */
  lemma {:induction false} TicketsMatch<T(!new)>(size: nat, threads: nat, steps: seq<Step<T>>, s: State<T>)
    requires size >= 2 && IsRun(Initial<T>(size, threads), steps) && s == Final(Initial<T>(size, threads), steps)
    ensures forall k :: k in s.results ==> k < s.dequeuePos <= |s.values| && s.results[k] == s.values[k]
    ensures s.dequeuePos <= s.enqueuePos <= s.dequeuePos + |s.cells|
    ensures forall t :: 0 <= t < |s.threads| && s.threads[t].DeqOwn? ==> s.threads[t].pos !in s.results
  {
    InitialInv<T>(size, threads);
    EveryRun(Initial<T>(size, threads), steps);
    forall t | 0 <= t < |s.threads| && s.threads[t].DeqOwn? ensures s.threads[t].pos !in s.results { OwnCell(s, t); }
  }

  predicate Owns<T>(th: Thread<T>) { th.EnqOwn? || th.DeqOwn? || th.DeqRead? }

  /** Between drawing a ticket and storing the sequence number, a cell has one owner. */
  lemma OneOwner<T(!new)>(s: State<T>, t: nat, u: nat)
    requires Inv(s) && t < |s.threads| && u < |s.threads| && Owns(s.threads[t]) && Owns(s.threads[u])
    requires Index(s.threads[t].pos, |s.cells|) == Index(s.threads[u].pos, |s.cells|)
    ensures t == u
  {
    assert GoodThread(s, t) && GoodThread(s, u);
    OwnCell(s, t);
    OwnCell(s, u);
    if s.threads[t].pos != s.threads[u].pos { OtherCell(s, s.threads[t].pos, s.threads[u].pos); }
  }

  lemma {:induction false} OthersRun<T(!new)>(s: State<T>, t: nat, steps: seq<Step<T>>)
    requires IsRun(s, steps) && t < |s.threads| && forall i :: 0 <= i < |steps| ==> steps[i].0 != t
    decreases |steps|
    ensures |Final(s, steps).threads| == |s.threads| && Final(s, steps).threads[t] == s.threads[t]
    ensures Final(s, steps).enqueuePos >= s.enqueuePos
  {
    if steps != [] {
      assert steps[0].0 != t;
      var next := Apply(s, steps[0].0, steps[0].1);
      assert forall i :: 0 <= i < |steps[1..]| ==> steps[1..][i] == steps[i + 1];
      OthersRun(next, t, steps[1..]);
    }
  }

  /** `is_empty` answers for the instant at which it read the back: whatever the others do until it reads the front
      again and finds it unchanged, it says "empty" exactly if the queue was empty then. */
  lemma {:induction false} EmptyForAnInstant<T(!new)>(s: State<T>, t: nat, e: Event<T>, steps: seq<Step<T>>,
                                                      last: State<T>)
    requires Inv(s) && e.LoadBack? && Enabled(s, t, e) && forall i :: 0 <= i < |steps| ==> steps[i].0 != t
    requires IsRun(Apply(s, t, e), steps) && last == Final(Apply(s, t, e), steps)
    ensures t < |last.threads| && last.threads[t].Probed?
    ensures last.enqueuePos == last.threads[t].front ==>
              (last.threads[t].back == last.threads[t].front <==> Contents(s) == [])
  {
    OthersRun(Apply(s, t, e), t, steps);
    assert GoodThread(s, t);
  }

  // When a call fails, and when it succeeds

  /** The next position from `from` on that uses the cell of `pos`. */
  lemma NextUse(pos: nat, from: nat, n: nat) returns (x: nat)
    requires n > 0 && pos < from
    decreases from - pos
    ensures from <= x < from + n && pos + n <= x && Index(x, n) == Index(pos, n)
    ensures x == pos + n || x >= pos + n + n
  {
    AddModulus(pos, n);
    if pos + n >= from {
      x := pos + n;
    } else {
      x := NextUse(pos + n, from, n);
    }
  }

  /** A producer is told "full" if and only if its position is the present one and the cell is still that of the
      ticket one round before, which is not taken out or not released. Otherwise it goes on if the cell is free, and
      only a position that is not the present one is loaded again. */
  lemma FullExactly<T(!new)>(s: State<T>, t: nat)
    requires Inv(s) && Enabled(s, t, LoadSequence) && s.threads[t].EnqAt?
    ensures var pos, n, after := s.threads[t].pos, |s.cells|, Apply(s, t, LoadSequence).threads[t];
            && (after.Idle? <==>
                 pos == s.enqueuePos && pos >= n && (pos - n >= s.dequeuePos || Draining(s, pos - n)))
            && (after == EnqTry(pos, s.threads[t].value) <==> CellOf(s, pos).sequence == pos)
            && (pos == s.enqueuePos ==> !after.EnqStart?)
  {
    var pos := s.threads[t].pos;
    assert GoodThread(s, t);
    if pos == s.enqueuePos {
      Cells(s, pos);
    } else {
      var x := NextUse(pos, s.enqueuePos, |s.cells|);
      Cells(s, x);
    }
  }

  /** A consumer is told "empty" if and only if its position is the present one and no value was announced under it. */
  lemma EmptyExactly<T(!new)>(s: State<T>, t: nat)
    requires Inv(s) && Enabled(s, t, LoadSequence) && s.threads[t].DeqAt?
    ensures var pos, after := s.threads[t].pos, Apply(s, t, LoadSequence).threads[t];
            && (after.Idle? <==> pos == s.dequeuePos && (pos == s.enqueuePos || Filling(s, pos)))
            && (after == DeqTry(pos) <==> CellOf(s, pos).sequence == pos + 1)
            && (pos == s.dequeuePos ==> !after.DeqStart?)
  {
    var pos := s.threads[t].pos;
    assert GoodThread(s, t);
    if pos == s.enqueuePos {
      Cells(s, pos);
    } else {
      var x := NextUse(pos, s.enqueuePos, |s.cells|);
      Cells(s, x);
    }
  }

  lemma ConsRun<T(!new)>(s: State<T>, t: nat, e: Event<T>, rest: seq<Step<T>>)
    requires Enabled(s, t, e) && IsRun(Apply(s, t, e), rest)
    ensures IsRun(s, [(t, e)] + rest) && Final(s, [(t, e)] + rest) == Final(Apply(s, t, e), rest)
  {
    hide Enabled, Apply;
    assert ([(t, e)] + rest)[1..] == rest;
  }

  lemma ConsAnswers<T(!new)>(s: State<T>, w: nat, e: Event<T>, rest: seq<Step<T>>)
    requires Enabled(s, w, e) && IsRun(Apply(s, w, e), rest)
    ensures IsRun(s, [(w, e)] + rest)
    ensures Answers(s, w, [(w, e)] + rest) == Answer(s, w, w, e) + Answers(Apply(s, w, e), w, rest)
  {
    hide Enabled, Apply, Answer;
    ConsRun(s, w, e, rest);
    assert ([(w, e)] + rest)[1..] == rest;
  }

  /** A producer that is not disturbed, on a queue whose next cell is free, puts its value in: it is appended, and
      announced in its cell. */
  lemma {:induction false} SoloEnqueue<T(!new)>(s: State<T>, t: nat, value: T, steps: seq<Step<T>>)
    requires Inv(s) && t < |s.threads| && s.threads[t].Idle?
    requires var n := |s.cells|; s.enqueuePos < n || (s.enqueuePos - n < s.dequeuePos && !Draining(s, s.enqueuePos - n))
    requires steps == [(t, Enqueue(value)), (t, LoadPosition), (t, LoadSequence), (t, CompareExchange(false)),
                       (t, MoveData), (t, StoreSequence)]
    ensures IsRun(s, steps)
    ensures var last := Final(s, steps);
            && |last.threads| == |s.threads| && last.threads[t] == Idle
            && last.values == s.values + [value] && last.enqueuePos == s.enqueuePos + 1
            && last.dequeuePos == s.dequeuePos && |last.cells| == |s.cells|
            && CellOf(last, s.enqueuePos) == Cell(s.enqueuePos + 1, Some(value))
  {
    hide IsRun, Final, Inv, Index;
    FreeCell(s);
    var s1 := Apply(s, t, Enqueue(value));
    var s2 := Apply(s1, t, LoadPosition);
    var s3 := Apply(s2, t, LoadSequence);
    assert s3 == SetThread(s, t, EnqTry(s.enqueuePos, value)) by { SetTwice(s, t); }
    var s4, s5, s6 := EnqueueOwned(s3, t);
    NoRun(s6);
    var five := [(t, StoreSequence)] + [];
    ConsRun(s5, t, StoreSequence, []);
    var four := [(t, MoveData)] + five;
    ConsRun(s4, t, MoveData, five);
    var three := [(t, CompareExchange(false))] + four;
    ConsRun(s3, t, CompareExchange(false), four);
    var two := [(t, LoadSequence)] + three;
    ConsRun(s2, t, LoadSequence, three);
    var one := [(t, LoadPosition)] + two;
    ConsRun(s1, t, LoadPosition, two);
    ConsRun(s, t, Enqueue(value), one);
    assert steps == [(t, Enqueue(value))] + one;
  }

  lemma SetTwice<T(!new)>(s: State<T>, t: nat)
    requires t < |s.threads|
    ensures forall a, b :: SetThread(SetThread(s, t, a), t, b) == SetThread(s, t, b)
  {}

  /** From the draw of the ticket to the announcement. */
  lemma EnqueueOwned<T(!new)>(s: State<T>, t: nat) returns (s4: State<T>, s5: State<T>, s6: State<T>)
    requires t < |s.threads| && |s.cells| > 0 && s.threads[t].EnqTry? && s.threads[t].pos == s.enqueuePos
    ensures Enabled(s, t, CompareExchange(false)) && s4 == Apply(s, t, CompareExchange(false))
    ensures Enabled(s4, t, MoveData) && s5 == Apply(s4, t, MoveData)
    ensures Enabled(s5, t, StoreSequence) && s6 == Apply(s5, t, StoreSequence)
    ensures |s6.threads| == |s.threads| && s6.threads[t] == Idle && |s6.cells| == |s.cells|
    ensures s6.values == s.values + [s.threads[t].value] && s6.enqueuePos == s.enqueuePos + 1
    ensures s6.dequeuePos == s.dequeuePos
    ensures CellOf(s6, s.enqueuePos) == Cell(s.enqueuePos + 1, Some(s.threads[t].value))
  {
    hide Index;
    s4 := Apply(s, t, CompareExchange(false));
    assert s4.threads[t] == EnqOwn(s.enqueuePos, s.threads[t].value, false) && s4.cells == s.cells;
    s5 := Apply(s4, t, MoveData);
    assert s5.threads[t] == EnqOwn(s.enqueuePos, s.threads[t].value, true);
    s6 := Apply(s5, t, StoreSequence);
  }

  lemma FreeCell<T(!new)>(s: State<T>)
    requires Inv(s)
    requires var n := |s.cells|; s.enqueuePos < n || (s.enqueuePos - n < s.dequeuePos && !Draining(s, s.enqueuePos - n))
    ensures |s.cells| > 0 && CellOf(s, s.enqueuePos).sequence == s.enqueuePos
  {
    Cells(s, s.enqueuePos);
  }

  lemma NoRun<T(!new)>(s: State<T>)
    ensures IsRun(s, []) && Final(s, []) == s && forall w :: Answers(s, w, []) == []
  {}

  /** A consumer that is not disturbed, on a queue whose oldest value is announced, reads exactly that value. */
  lemma {:induction false} SoloDequeue<T(!new)>(s: State<T>, t: nat, steps: seq<Step<T>>)
    requires Inv(s) && t < |s.threads| && s.threads[t].Idle?
    requires s.dequeuePos < s.enqueuePos && !Filling(s, s.dequeuePos)
    requires steps == [(t, Dequeue), (t, LoadPosition), (t, LoadSequence), (t, CompareExchange(false)), (t, MoveData),
                       (t, StoreSequence)]
    ensures IsRun(s, steps) && Answers(s, t, steps) == [Some(s.values[s.dequeuePos])]
    ensures var last := Final(s, steps);
            && |last.threads| == |s.threads| && last.threads[t] == Idle
            && last.dequeuePos == s.dequeuePos + 1 && last.values == s.values
            && s.dequeuePos in last.results && last.results[s.dequeuePos] == s.values[s.dequeuePos]
  {
    hide IsRun, Final, Inv, Index, Answers;
    OldestCell(s);
    var s1 := Apply(s, t, Dequeue);
    var s2 := Apply(s1, t, LoadPosition);
    var s3 := Apply(s2, t, LoadSequence);
    assert s3.threads[t] == DeqTry(s.dequeuePos);
    var s4 := Apply(s3, t, CompareExchange(false));
    var s5 := Apply(s4, t, MoveData);
    var s6 := Apply(s5, t, StoreSequence);
    NoRun(s6);
    var five := [(t, StoreSequence)] + [];
    ConsRun(s5, t, StoreSequence, []);
    ConsAnswers(s5, t, StoreSequence, []);
    var four := [(t, MoveData)] + five;
    ConsRun(s4, t, MoveData, five);
    ConsAnswers(s4, t, MoveData, five);
    var three := [(t, CompareExchange(false))] + four;
    ConsRun(s3, t, CompareExchange(false), four);
    ConsAnswers(s3, t, CompareExchange(false), four);
    var two := [(t, LoadSequence)] + three;
    ConsRun(s2, t, LoadSequence, three);
    ConsAnswers(s2, t, LoadSequence, three);
    var one := [(t, LoadPosition)] + two;
    ConsRun(s1, t, LoadPosition, two);
    ConsAnswers(s1, t, LoadPosition, two);
    ConsRun(s, t, Dequeue, one);
    ConsAnswers(s, t, Dequeue, one);
    assert steps == [(t, Dequeue)] + one;
  }

  lemma OldestCell<T(!new)>(s: State<T>)
    requires Inv(s) && s.dequeuePos < s.enqueuePos && !Filling(s, s.dequeuePos)
    ensures CellOf(s, s.dequeuePos) == Cell(s.dequeuePos + 1, Some(s.values[s.dequeuePos]))
  {
    Cells(s, s.dequeuePos + |s.cells|);
  }

  /** A consumer that is not disturbed, on an empty queue, is told so. */
  lemma {:induction false} SoloEmpty<T(!new)>(s: State<T>, t: nat, steps: seq<Step<T>>)
    requires Inv(s) && t < |s.threads| && s.threads[t].Idle? && s.dequeuePos == s.enqueuePos
    requires steps == [(t, Dequeue), (t, LoadPosition), (t, LoadSequence)]
    ensures IsRun(s, steps) && Answers(s, t, steps) == [None]
    ensures Contents(s) == [] && |Final(s, steps).threads| == |s.threads| && Final(s, steps).threads[t] == Idle
  {
    hide IsRun, Final, Index, Answers;
    Cells(s, s.enqueuePos);
    var s1 := Apply(s, t, Dequeue);
    var s2 := Apply(s1, t, LoadPosition);
    var s3 := Apply(s2, t, LoadSequence);
    NoRun(s3);
    var two := [(t, LoadSequence)] + [];
    ConsRun(s2, t, LoadSequence, []);
    ConsAnswers(s2, t, LoadSequence, []);
    var one := [(t, LoadPosition)] + two;
    ConsRun(s1, t, LoadPosition, two);
    ConsAnswers(s1, t, LoadPosition, two);
    ConsRun(s, t, Dequeue, one);
    ConsAnswers(s, t, Dequeue, one);
    assert steps == [(t, Dequeue)] + one;
  }

  // One consumer

  /** What the calls of thread `w` answer with a step: the value it reads, or that the queue looks empty. */
  function Answer<T(!new)>(s: State<T>, w: nat, t: nat, e: Event<T>): seq<Option<T>>
    requires Enabled(s, t, e)
  {
    var th := s.threads[t];
    if t != w then []
    else if e.MoveData? && th.DeqOwn? then [Some(CellOf(s, th.pos).data.value)]
    else if e.LoadSequence? && th.DeqAt? && CellOf(s, th.pos).sequence < th.pos + 1 then [None]
    else []
  }

  ghost function Answers<T(!new)>(s: State<T>, w: nat, steps: seq<Step<T>>): seq<Option<T>>
    requires IsRun(s, steps)
    decreases |steps|
  {
    if steps == [] then []
    else Answer(s, w, steps[0].0, steps[0].1) + Answers(Apply(s, steps[0].0, steps[0].1), w, steps[1..])
  }

  /** The values among the answers. */
  function Values<T>(answers: seq<Option<T>>): seq<T> {
    if answers == [] then []
    else (if answers[0].Some? then [answers[0].value] else []) + Values(answers[1..])
  }

  lemma {:induction false} ValuesConcat<T>(a: seq<Option<T>>, b: seq<Option<T>>)
    ensures Values(a + b) == Values(a) + Values(b)
  {
    if a == [] {
      assert a + b == b;
    } else {
      ConcatTail(a, b);
      ValuesConcat(a[1..], b);
      Associative(if a[0].Some? then [a[0].value] else [], Values(a[1..]), Values(b));
    }
  }

  /** Only thread `w` calls dequeue. */
  ghost predicate OnlyConsumer<T(!new)>(w: nat, steps: seq<Step<T>>) {
    forall i :: 0 <= i < |steps| ==> steps[i].1.Dequeue? ==> steps[i].0 == w
  }

  predicate Consumes<T>(th: Thread<T>) {
    th.DeqStart? || th.DeqAt? || th.DeqTry? || th.DeqOwn? || th.DeqRead?
  }

  /** Nobody else is in a dequeue call, and the ticket `w` holds is the last one drawn. */
  ghost predicate Lone<T(!new)>(s: State<T>, w: nat) {
    && w < |s.threads|
    && (forall t :: 0 <= t < |s.threads| && t != w ==> !Consumes(s.threads[t]))
    && (s.threads[w].DeqOwn? ==> s.threads[w].pos + 1 == s.dequeuePos)
  }

  /** How many values `w` has read. */
  function ReadCount<T>(s: State<T>, w: nat): nat {
    if w < |s.threads| && s.threads[w].DeqOwn? && s.dequeuePos > 0 then s.dequeuePos - 1 else s.dequeuePos
  }

  /** A value is read: it is that of the next ticket. */
  lemma ReadReads<T(!new)>(s: State<T>, w: nat, e: Event<T>)
    requires Inv(s) && Lone(s, w) && Enabled(s, w, e) && e.MoveData? && s.threads[w].DeqOwn?
    ensures var s' := Apply(s, w, e);
            && Lone(s', w) && s.values == s'.values && ReadCount(s', w) == ReadCount(s, w) + 1 <= |s.values|
            && Answer(s, w, w, e) == [Some(s.values[ReadCount(s, w)])]
  {
    OwnCell(s, w);
  }

  /** Nothing is read with any other step. */
  lemma OthersReadNothing<T(!new)>(s: State<T>, w: nat, t: nat, e: Event<T>)
    requires Inv(s) && Lone(s, w) && Enabled(s, t, e) && (e.Dequeue? ==> t == w)
    requires t != w || !e.MoveData? || !s.threads[w].DeqOwn?
    ensures var s' := Apply(s, t, e);
            && Lone(s', w) && s.values <= s'.values && ReadCount(s', w) == ReadCount(s, w) <= |s.values|
            && (Answer(s, w, t, e) == [] || Answer(s, w, t, e) == [None])
  {
    hide Index;
  }

  lemma StepReads<T(!new)>(s: State<T>, w: nat, t: nat, e: Event<T>)
    requires Inv(s) && Lone(s, w) && Enabled(s, t, e) && (e.Dequeue? ==> t == w)
    ensures var s' := Apply(s, t, e);
            && Lone(s', w) && s.values <= s'.values
            && ReadCount(s, w) <= ReadCount(s', w) <= |s'.values|
            && Values(Answer(s, w, t, e)) == s'.values[ReadCount(s, w)..ReadCount(s', w)]
  {
    hide Inv, Apply, Lone, ReadCount, Answer;
    if t == w && e.MoveData? && s.threads[w].DeqOwn? {
      ReadReads(s, w, e);
      assert s.values[ReadCount(s, w)..ReadCount(s, w) + 1] == [s.values[ReadCount(s, w)]];
    } else {
      OthersReadNothing(s, w, t, e);
    }
  }

  /** A lone consumer reads the values in the order of their tickets, every one once: what it reads along a run is
      the part of the values between what it had read before and what it has read after. */
  lemma {:induction false} LoneConsumerReads<T(!new)>(s: State<T>, w: nat, steps: seq<Step<T>>)
    requires Inv(s) && Lone(s, w) && IsRun(s, steps) && OnlyConsumer(w, steps)
    decreases |steps|
    ensures var last := Final(s, steps);
            && Lone(last, w) && s.values <= last.values
            && ReadCount(s, w) <= ReadCount(last, w) <= |last.values|
            && Values(Answers(s, w, steps)) == last.values[ReadCount(s, w)..ReadCount(last, w)]
  {
    hide Enabled, Apply, Inv, Lone, Answer, ReadCount;
    if steps == [] {
      NothingRead(s, w);
    } else {
      var t, e := steps[0].0, steps[0].1;
      var next := Apply(s, t, e);
      assert forall i :: 0 <= i < |steps[1..]| ==> steps[1..][i] == steps[i + 1];
      StepInv(s, t, e);
      StepReads(s, w, t, e);
      LoneConsumerReads(next, w, steps[1..]);
      ValuesConcat(Answer(s, w, t, e), Answers(next, w, steps[1..]));
      var a, b, c := ReadCount(s, w), ReadCount(next, w), ReadCount(Final(s, steps), w);
      Joined(next.values, Final(s, steps).values, a, b, c);
    }
  }

  lemma NothingRead<T(!new)>(s: State<T>, w: nat)
    requires Inv(s) && Lone(s, w)
    ensures ReadCount(s, w) <= |s.values| && s.values[ReadCount(s, w)..ReadCount(s, w)] == []
  {
    assert GoodThread(s, w);
  }

  lemma Joined<T>(part: seq<T>, all: seq<T>, a: nat, b: nat, c: nat)
    requires part <= all && a <= b <= |part| && b <= c <= |all|
    ensures part[a..b] + all[b..c] == all[a..c]
  {}

  lemma InitialLone<T(!new)>(size: nat, threads: nat, w: nat)
    requires w < threads
    ensures Lone(Initial<T>(size, threads), w) && ReadCount(Initial<T>(size, threads), w) == 0
  {}
}
