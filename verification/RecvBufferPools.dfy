/** The pool of receive buffers, with one call at a time. What happens when returns overlap is the subject of
    `PoolProtocol`. */
module RecvBufferPools {
  import opened Arithmetic
  import opened Finite
  import opened Rings
  import opened WorkRequestPools

  /** A slice of the memory region, by its offset. */
  datatype MemReg = MemReg(offset: nat, size: nat)

  /** The two exceptions of a return: the test on the ring indices, and the test on the slot. */
  datatype ReturnError = PoolOverflow | Overwriting

  datatype Returned = Done | Failed(error: ReturnError)

  /** What a batch take believes to be published: one less than there is once the ring has wrapped. */
  function Available(front: nat, back: nat, poolSize: nat): (available: nat)
    requires front <= poolSize && back <= poolSize
    ensures available == Distance(front, back, poolSize + 1) - if front <= back then 0 else 1
  {
    if front <= back then back - front else poolSize - front + back
  }

  class RecvBufferPool {
    const bufferSize: nat
    const poolSize: nat
    const buffers: array<MemReg>
    const queue: array<Option<nat>>
    var front: nat
    var back: nat
    var backRes: nat
    /** The published buffers, in the order they are handed out. */
    ghost var free: seq<nat>

    ghost predicate Valid()
      reads this, queue
    {
      && queue.Length == poolSize + 1
      && front < queue.Length && back < queue.Length && backRes == back
      && Filled(queue[..], front, Distance(front, back, queue.Length))
      && free == Held(queue[..], front, Distance(front, back, queue.Length))
    }

    /** The buffers are the consecutive slices of one region, and all of them are published. Their number is cut to
        32 bits; the largest such number leaves no room for the gap of the ring. */
    constructor (totalPoolSize: nat, recvBufferSize: U32)
      requires recvBufferSize > 0 && totalPoolSize / recvBufferSize % WORD != WORD - 1
      ensures Valid() && fresh(queue) && fresh(buffers)
      ensures bufferSize == recvBufferSize && poolSize == totalPoolSize / recvBufferSize % WORD
      ensures free == Indices(poolSize)
      ensures buffers.Length == poolSize
      ensures forall i :: 0 <= i < poolSize ==>
                buffers[i].size == recvBufferSize && buffers[i].offset + buffers[i].size <= totalPoolSize
      ensures forall i, j :: 0 <= i < j < poolSize ==> buffers[i].offset + buffers[i].size <= buffers[j].offset
    {
      hide Filled, Held, Slot;
      var n := totalPoolSize / recvBufferSize % WORD;
      bufferSize := recvBufferSize;
      poolSize := n;
      queue := new Option<nat>[n + 1](i => if i < n then Some(i) else None);
      buffers := new MemReg[n](i requires 0 <= i => MemReg(i * recvBufferSize, recvBufferSize));
      front := 0;
      back := n;
      backRes := n;
      free := Indices(n);
      new;
      FullPool(queue[..], n);
      SlicesApart(buffers[..], recvBufferSize, totalPoolSize);
      assert forall i :: 0 <= i < n ==> buffers[i] == buffers[..][i];
    }

    method GetBuffer() returns (buffer: Option<nat>)
      requires Valid()
      modifies this`front, this`free, queue
      ensures Valid()
      ensures old(free) == [] ==> buffer == None && free == []
      ensures old(free) != [] ==> buffer == Some(old(free)[0]) && free == old(free)[1..]
    {
      hide Filled, Held, Slot, Distance;
      DistanceEmpty(front, back, queue.Length);
      if front == back {
        return None;
      }
      TakeFront(queue[..], front, Distance(front, back, queue.Length));
      ghost var before := queue[..];
      buffer := queue[front];
      if buffer == None {
        assert false;
      }
      queue[front] := None;
      assert queue[..] == before[front := None];
      SlotIsRemainder(front, 1, poolSize + 1);
      DistanceMoves(front, back, 1, poolSize + 1);
      front := (front + 1) % (poolSize + 1);
      free := free[1..];
    }

    /** Empties the slot `i` places behind the front, which holds the next buffer. */
    method TakeSlot(i: nat, size: nat, ghost published: nat) returns (buffer: nat)
      requires size == queue.Length && front < size && i < published <= size
      requires Filled(queue[..], Slot(front, i, size), published - i)
      modifies queue
      ensures Filled(queue[..], Slot(front, i + 1, size), published - i - 1)
      ensures buffer == old(Held(queue[..], Slot(front, i, size), published - i)[0])
      ensures Held(queue[..], Slot(front, i + 1, size), published - i - 1)
           == old(Held(queue[..], Slot(front, i, size), published - i)[1..])
    {
      hide Filled, Held, Slot;
      SlotIsRemainder(front, i, size);
      SlotShift(front, i, 1, size);
      ghost var before := queue[..];
      TakeFront(before, Slot(front, i, size), published - i);
      var slot := queue[(front + i) % size];
      if slot == None {
        assert false;
      }
      buffer := slot.value;
      queue[(front + i) % size] := None;
      assert queue[..] == before[Slot(front, i, size) := None];
    }

    /** Hands out the oldest buffers: as many as asked for, or all, or all but one if the ring has wrapped. */
    method GetBuffers(retBuffers: array<nat>, count: nat) returns (taken: nat)
      requires Valid() && count <= retBuffers.Length && retBuffers as object != queue
      modifies this`front, this`free, queue, retBuffers
      ensures Valid()
      ensures taken == Min(count, |old(free)| - if old(free) != [] && old(front) > back then 1 else 0)
      ensures retBuffers[..taken] == old(free)[..taken] && retBuffers[taken..] == old(retBuffers[taken..])
      ensures free == old(free)[taken..]
    {
      hide Filled, Held, Slot, Distance, Indices;
      if count == 0 {
        return 0;
      }
      DistanceEmpty(front, back, queue.Length);
      if front == back {
        return 0;
      }
      var available := Available(front, back, poolSize);
      taken := count;
      if available < taken {
        taken := available;
      }
      ghost var published := Distance(front, back, queue.Length);
      var size := poolSize + 1;
      SlotAtFront(front, 0, size);
      for i := 0 to taken
        invariant front == old(front) && free == old(free)
        invariant Filled(queue[..], Slot(front, i, size), published - i)
        invariant Held(queue[..], Slot(front, i, size), published - i) == free[i..]
        invariant retBuffers[..i] == free[..i] && retBuffers[i..] == old(retBuffers[i..])
      {
        var buffer := TakeSlot(i, size, published);
        PrefixStep(free, i);
        ghost var taken0 := retBuffers[..];
        retBuffers[i] := buffer;
        UpdatePrefix(taken0, retBuffers[..], i, buffer);
      }
      SlotIsRemainder(front, taken, size);
      DistanceMoves(front, back, taken, size);
      front := (front + taken) % size;
      assert Distance(front, back, size) == published - taken;
      free := free[taken..];
    }

    method ReturnBuffer(buffer: nat) returns (r: Returned)
      requires Valid()
      modifies this`back, this`backRes, this`free, queue
      ensures Valid()
      ensures |old(free)| == poolSize ==> r == Failed(PoolOverflow) && free == old(free)
      ensures |old(free)| < poolSize ==> r == Done && free == old(free) + [buffer]
    {
      hide Filled, Held, Slot, Distance;
      ghost var published := Distance(front, back, queue.Length);
      SlotIsRemainder(backRes, 1, poolSize + 1);
      SlotShift(front, published, 1, poolSize + 1);
      SlotAtFront(front, published + 1, poolSize + 1);
      if (backRes + 1) % (poolSize + 1) == front {
        return Failed(PoolOverflow);
      }
      PutBack(queue[..], front, published, buffer);
      DistanceMoves(front, back, 1, poolSize + 1);
      ghost var before := queue[..];
      var res := backRes;
      backRes := (res + 1) % (poolSize + 1);
      if queue[res] != None {
        assert false;
      }
      queue[res] := Some(buffer);
      assert queue[..] == before[res := Some(buffer)];
      back := (res + 1) % (poolSize + 1);
      free := free + [buffer];
      return Done;
    }

    /** Room for all of them: they go to the back, in order. Not enough room: an exception, either before anything
        has changed or, if the new back index would have passed the front, when a slot is found taken. */
    method ReturnBuffers(returned: seq<nat>) returns (r: Returned)
      requires Valid()
      modifies this`back, this`backRes, this`free, queue
      ensures |old(free)| + |returned| <= poolSize ==> r == Done && Valid() && free == old(free) + returned
      ensures |old(free)| + |returned| > poolSize ==> r.Failed? && free == old(free) && back == old(back)
      ensures r == Failed(PoolOverflow) ==> Valid()
      ensures r == Failed(PoolOverflow) <==> returned != [] && (old(backRes) + |returned|) % (poolSize + 1) == front
    {
      hide Filled, Held, Slot, Distance;
      if returned == [] {
        return Done;
      }
      var size := poolSize + 1;
      ghost var published := Distance(front, back, queue.Length);
      if published + |returned| <= size {
        SlotIsRemainder(backRes, |returned|, size);
        SlotShift(front, published, |returned|, size);
        SlotAtFront(front, published + |returned|, size);
      }
      if (backRes + |returned|) % size == front {
        return Failed(PoolOverflow);
      }
      assert published + |returned| != size;
      var res := backRes;
      backRes := (res + |returned|) % size;
      ghost var reserved := backRes;
      for i := 0 to |returned|
        invariant front == old(front) && back == old(back) && free == old(free) && backRes == reserved
        invariant published + i <= size
        invariant Filled(queue[..], front, published + i)
        invariant Held(queue[..], front, published + i) == free + returned[..i]
      {
        if published + i < size {
          SlotIsRemainder(res, i, size);
          SlotShift(front, published, i, size);
          PutBack(queue[..], front, published + i, returned[i]);
        } else {
          SlotIsRemainder(res, i, size);
          FullRing(queue[..], front, (res + i) % size);
        }
        if queue[(res + i) % size] != None {
          return Failed(Overwriting);
        }
        ghost var before := queue[..];
        queue[(res + i) % size] := Some(returned[i]);
        assert queue[..] == before[Slot(front, published + i, size) := Some(returned[i])];
        PrefixStep(returned, i);
      }
      DistanceMoves(front, res, |returned|, size);
      SlotIsRemainder(res, |returned|, size);
      back := (res + |returned|) % size;
      assert Distance(front, back, size) == published + |returned|;
      free := free + returned;
      assert returned[..|returned|] == returned;
      assert Valid();
      return Done;
    }
  }

  lemma FullPool(slots: seq<Option<nat>>, n: nat)
    requires |slots| == n + 1 && slots[n] == None && forall i :: 0 <= i < n ==> slots[i] == Some(i)
    ensures Filled(slots, 0, n) && Held(slots, 0, n) == Indices(n)
  {}

  /** Consecutive slices of one size lie in the region and do not overlap. */
  lemma SlicesApart(buffers: seq<MemReg>, size: nat, total: nat)
    requires size > 0 && |buffers| <= total / size
    requires forall i :: 0 <= i < |buffers| ==> buffers[i] == MemReg(i * size, size)
    ensures forall i :: 0 <= i < |buffers| ==> buffers[i].offset + buffers[i].size <= total
    ensures forall i, j :: 0 <= i < j < |buffers| ==> buffers[i].offset + buffers[i].size <= buffers[j].offset
  {
    WholeGroups(total, size);
    forall i | 0 <= i < |buffers| ensures buffers[i].offset + buffers[i].size <= total {
      MulMonotone(i + 1, total / size, size);
      Distribute(i, size);
    }
    forall i, j | 0 <= i < j < |buffers| ensures buffers[i].offset + buffers[i].size <= buffers[j].offset {
      MulMonotone(i + 1, j, size);
      Distribute(i, size);
    }
  }

  /** A full ring has no empty slot. */
  lemma FullRing(slots: seq<Option<nat>>, front: nat, k: nat)
    requires Filled(slots, front, |slots|) && k < |slots|
    ensures slots[k].Some?
  {
    assert Slot(front, Distance(front, k, |slots|), |slots|) == k;
  }
}
