/** The job queue: a ring indexed by free-running 32-bit counters, with one pusher at a time. */
module JobQueues {
  import opened Arithmetic
  import opened Rings

  /** Counters that run through 2^32 keep their slots, because the size divides 2^32. */
  lemma WrapKeepsSlot(a: nat, size: nat)
    requires size > 0 && WORD % size == 0 && a < WORD + WORD
    ensures (if a < WORD then a else a - WORD) % size == a % size
  {
    if a >= WORD {
      var k := WORD / size;
      assert k * size == WORD;
      var b := a - WORD;
      assert a == (b / size + k) * size + b % size;
      QuotientUnique(a, size, b / size + k, b % size);
    }
  }

  /** The slot `i` places behind a counter. */
  lemma CounterSlot(counter: U32, i: nat, size: nat)
    requires size > 0 && WORD % size == 0 && i <= size
    ensures (if counter + i < WORD then counter + i else counter + i - WORD) % size == Slot(counter % size, i, size)
  {
    SizeFits(size);
    WrapKeepsSlot(counter + i, size);
    SumRemainder(counter, i, size);
    SlotIsRemainder(counter % size, i, size);
  }

  lemma SizeFits(size: nat)
    requires size > 0 && WORD % size == 0
    ensures size <= WORD
  {
    if size > WORD { SmallRemainder(WORD, size); }
  }

  /** The test as it is written, `backRes + 1 % m_size == front % m_size`, against the number of jobs in the queue. */
  lemma WrittenTest(front: U32, back: U32, size: nat)
    requires 2 <= size && WORD % size == 0 && Sub32(back, front) < size
    ensures Add32(back, 1 % size) == front % size <==> Sub32(back, front) == size - 1 && front >= WORD - size
  {
    SizeFits(size);
    SmallRemainder(1, size);
    if front >= WORD - size {
      var r := front - (WORD - size);
      WrapKeepsSlot(front + size, size);
      AddModulus(front, size);
      SmallOrZero(r, size);
    } else if front < size {
      SmallRemainder(front, size);
    }
  }

  /** On a ring that has filled up the test never fires: the next job takes the slot of the oldest. */
  lemma FullTest(front: U32, back: U32, size: nat)
    requires 2 <= size && WORD % size == 0 && Sub32(back, front) == size
    ensures Add32(back, 1 % size) != front % size && back % size == front % size
    ensures Sub32(Add32(back, 1), front) == size + 1
  {
    SizeFits(size);
    SmallRemainder(1, size);
    CounterSlot(front, size, size);
    SlotAtFront(front % size, size, size);
    CounterSlot(back, 1, size);
    SlotAtFront(back % size, 1, size);
    SizeEven(size);
    RemainderTwice(front, size);
  }

  lemma RemainderTwice(a: nat, size: nat)
    requires size > 0
    ensures a % size % size == a % size
  {
    SmallRemainder(a % size, size);
  }

  lemma SizeEven(size: nat)
    requires 2 <= size && WORD % size == 0
    ensures size + 1 < WORD || size == WORD
  {
    if size == WORD - 1 {
      QuotientUnique(WORD, size, 1, 1);
    }
  }

  lemma SmallOrZero(r: nat, size: nat)
    requires size > 0 && r < size
    ensures r % size == r
  {}

  class JobQueue<T> {
    const size: nat
    const queue: array<Option<T>>
    var front: U32
    var back: U32
    var backRes: U32

    /** The number of jobs. */
    function Count(): nat
      reads this`front, this`back
    {
      Sub32(back, front)
    }

    ghost predicate Valid()
      reads this, queue
    {
      && 2 <= size == queue.Length && WORD % size == 0
      && backRes == back && Count() <= size
    }

    ghost function Contents(): (jobs: seq<Option<T>>)
      requires Valid()
      reads this, queue
      ensures |jobs| == Count()
    {
      Window(queue[..], front % size, Count())
    }

    constructor (size: nat)
      requires 2 <= size && WORD % size == 0
      ensures Valid() && fresh(queue) && this.size == size && Contents() == []
    {
      this.size := size;
      queue := new Option<T>[size](_ => None);
      front := 0;
      back := 0;
      backRes := 0;
    }

    /** A job goes to the back as long as there is room for one more behind it. When one slot is left, the written
        test refuses the job only in the last round of the counter; else the ring fills up and looks empty, and the
        next job takes the slot of the oldest. */
    method PushBack(job: T) returns (pushed: bool)
      requires Valid()
      modifies this`back, this`backRes, queue
      ensures old(Count()) < size - 1 ==> pushed
      ensures old(Count()) == size - 1 ==> (pushed <==> front < WORD - size)
      ensures old(Count()) < size ==>
                Valid() && Contents() == if pushed then old(Contents()) + [Some(job)] else old(Contents())
      ensures old(Count()) == size ==>
                pushed && Count() == size + 1 && queue[..] == old(queue[..])[front % size := Some(job)]
    {
      if Count() == size {
        FullTest(front, back, size);
      } else {
        WrittenTest(front, backRes, size);
        CounterSlot(front, Count(), size);
        WindowPush(queue[..], front % size, Count(), Some(job));
      }
      if Add32(backRes, 1 % size) == front % size {
        return false;
      }
      SizeFits(size);
      backRes := Add32(backRes, 1);
      queue[back % size] := Some(job);
      back := Add32(back, 1);
      return true;
    }

    /** The oldest job, if the queue does not look empty. */
    method PopFront() returns (job: Option<T>)
      requires Valid()
      modifies this`front
      ensures Valid()
      ensures 0 < old(Count()) < size ==> job == old(Contents())[0] && Contents() == old(Contents())[1..]
      ensures old(Count()) == 0 || old(Count()) == size ==> job == None && Contents() == old(Contents())
    {
      LooksEmpty(front, back, size);
      if front % size == back % size {
        return None;
      }
      job := queue[front % size];
      SizeFits(size);
      CounterSlot(front, 1, size);
      WindowDrop(queue[..], queue[..], front % size, Count(), 1);
      SlotAtFront(front % size, 0, size);
      front := Add32(front, 1);
    }

    method IsEmpty() returns (empty: bool)
      requires Valid()
      ensures empty <==> Count() == 0 || Count() == size
    {
      LooksEmpty(front, back, size);
      return front % size == back % size;
    }
  }

  /** Equal slots mean an empty queue, or a full one. */
  lemma LooksEmpty(front: U32, back: U32, size: nat)
    requires 2 <= size && WORD % size == 0 && Sub32(back, front) <= size
    ensures front % size == back % size <==> Sub32(back, front) == 0 || Sub32(back, front) == size
  {
    SizeFits(size);
    CounterSlot(front, Sub32(back, front), size);
    SlotAtFront(front % size, Sub32(back, front), size);
  }

  /** The ring of 1024 jobs that the job manager uses: with 1023 jobs waiting, another push succeeds and the queue
      then looks empty. */
  lemma FullLooksEmpty(front: U32, back: U32)
    requires front < WORD - 1024 && back == front + 1023
    ensures Add32(back, 1 % 1024) != front % 1024
    ensures front % 1024 == Add32(back, 1) % 1024
  {
    assert WORD % 1024 == 0;
    WrittenTest(front, back, 1024);
    LooksEmpty(front, Add32(back, 1), 1024);
  }
}
