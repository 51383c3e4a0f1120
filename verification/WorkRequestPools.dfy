/** The two object pools of the message dispatchers. Pooled objects are named by their index in the
    pool (`m_pool[i]`), and a null pointer in the ring is `None`. */
module WorkRequestPools {
  import opened Finite
  import opened Rings

  /** The exceptions of the pools that can occur; the two null checks are shown to never fire. */
  datatype Error = RanDry | Overflow

  datatype Result<+T> = Ok(value: T) | Err(error: Error)

  function Values(slots: seq<Option<nat>>): (v: seq<nat>)
    requires forall i :: 0 <= i < |slots| ==> slots[i].Some?
    ensures |v| == |slots|
  {
    seq(|slots|, i requires 0 <= i < |slots| => slots[i].value)
  }

  /** A ring whose first `count` slots behind `front` hold objects and whose other slots are null. */
  ghost predicate Filled(slots: seq<Option<nat>>, front: nat, count: nat) {
    && front < |slots| && count <= |slots|
    && (forall i :: 0 <= i < |slots| ==> (slots[Slot(front, i, |slots|)].Some? <==> i < count))
  }

  function Held(slots: seq<Option<nat>>, front: nat, count: nat): (held: seq<nat>)
    requires Filled(slots, front, count)
    ensures |held| == count
  {
    Values(Window(slots, front, count))
  }

  lemma TakeFront(slots: seq<Option<nat>>, front: nat, count: nat)
    requires Filled(slots, front, count) && count > 0
    ensures var after := slots[front := None];
            && Filled(after, Slot(front, 1, |slots|), count - 1)
            && Held(after, Slot(front, 1, |slots|), count - 1) == Held(slots, front, count)[1..]
            && slots[front] == Some(Held(slots, front, count)[0])
  {
    var after := slots[front := None];
    var size := |slots|;
    assert Slot(front, 0, size) == front;
    forall i | 0 <= i < size
      ensures after[Slot(Slot(front, 1, size), i, size)].Some? <==> i < count - 1
    {
      SlotShift(front, 1, if i < size - 1 then i else 0, size);
      assert i < size - 1 ==> Slot(Slot(front, 1, size), i, size) == Slot(front, i + 1, size);
      assert i == size - 1 ==> Slot(Slot(front, 1, size), i, size) == front;
    }
    WindowDrop(slots, after, front, count, 1);
  }

  lemma PutBack(slots: seq<Option<nat>>, front: nat, count: nat, x: nat)
    requires Filled(slots, front, count) && count < |slots|
    ensures var after := slots[Slot(front, count, |slots|) := Some(x)];
            && Filled(after, front, count + 1)
            && Held(after, front, count + 1) == Held(slots, front, count) + [x]
            && slots[Slot(front, count, |slots|)] == None
  {
    forall i | 0 <= i < |slots| && i != count ensures Slot(front, i, |slots|) != Slot(front, count, |slots|) {
      SlotInjective(front, i, count, |slots|);
    }
    WindowPush(slots, front, count, Some(x));
  }

  /** Send work request contexts: a ring with a counter of the objects handed out. */
  class SendWorkRequestCtxPool {
    const poolSize: nat
    const queue: array<Option<nat>>
    var nonReturned: nat
    var front: nat
    var back: nat
    /** The objects in the pool, in the order they are handed out. */
    ghost var free: seq<nat>

    ghost predicate Valid()
      reads this, queue
    {
      && 0 < poolSize == queue.Length
      && nonReturned <= poolSize
      && Filled(queue[..], front, poolSize - nonReturned)
      && back == Slot(front, poolSize - nonReturned, poolSize)
      && free == Held(queue[..], front, poolSize - nonReturned)
    }

    constructor (numWorkRequests: nat)
      requires numWorkRequests > 0
      ensures Valid() && fresh(queue)
      ensures poolSize == numWorkRequests && free == Indices(poolSize)
    {
      poolSize := numWorkRequests;
      queue := new Option<nat>[numWorkRequests](i => Some(i));
      nonReturned := 0;
      front := 0;
      back := 0;
      free := Indices(numWorkRequests);
      new;
      assert free == Held(queue[..], front, numWorkRequests);
    }

    method Pop() returns (r: Result<nat>)
      requires Valid()
      modifies this`front, this`nonReturned, this`free, queue
      ensures Valid()
      ensures old(free) == [] ==> r == Err(RanDry) && free == []
      ensures old(free) != [] ==> r == Ok(old(free)[0]) && free == old(free)[1..]
    {
      if nonReturned == poolSize {
        return Err(RanDry);
      }
      TakeFront(queue[..], front, poolSize - nonReturned);
      var tmp := queue[front];
      if tmp.None? {
        assert false;
      }
      queue[front] := None;
      free := free[1..];
      SlotIsRemainder(front, 1, poolSize);
      SlotShift(front, 1, poolSize - nonReturned - 1, poolSize);
      front := (front + 1) % poolSize;
      nonReturned := nonReturned + 1;
      return Ok(tmp.value);
    }

    method Push(id: nat) returns (r: Result<()>)
      requires Valid()
      modifies this`back, this`nonReturned, this`free, queue
      ensures Valid()
      ensures |old(free)| == poolSize ==> r == Err(Overflow) && free == old(free)
      ensures |old(free)| < poolSize ==> r == Ok(()) && free == old(free) + [id]
    {
      if nonReturned == 0 {
        return Err(Overflow);
      }
      PutBack(queue[..], front, poolSize - nonReturned, id);
      if queue[back].Some? {
        assert false;
      }
      queue[back] := Some(id);
      free := free + [id];
      SlotIsRemainder(back, 1, poolSize);
      SlotShift(front, poolSize - nonReturned, 1, poolSize);
      back := (back + 1) % poolSize;
      nonReturned := nonReturned - 1;
      return Ok(());
    }
  }

  /** Receive work requests: a ring with one slot more than objects, so that front == back means empty. */
  class RecvWorkRequestPool {
    const poolSize: nat
    const queue: array<Option<nat>>
    var front: nat
    var back: nat
    /** The objects in the pool, in the order they are handed out. */
    ghost var free: seq<nat>

    ghost predicate Valid()
      reads this, queue
    {
      && queue.Length == poolSize + 1
      && front < queue.Length && back < queue.Length
      && Filled(queue[..], front, Distance(front, back, queue.Length))
      && free == Held(queue[..], front, Distance(front, back, queue.Length))
    }

    constructor (numWorkRequests: nat)
      ensures Valid() && fresh(queue)
      ensures poolSize == numWorkRequests && free == Indices(poolSize)
    {
      poolSize := numWorkRequests;
      queue := new Option<nat>[numWorkRequests + 1](i => if i < numWorkRequests then Some(i) else None);
      front := 0;
      back := numWorkRequests;
      free := Indices(numWorkRequests);
      new;
      assert free == Held(queue[..], front, numWorkRequests);
    }

    method Pop() returns (r: Result<nat>)
      requires Valid()
      modifies this`front, this`free, queue
      ensures Valid()
      ensures old(free) == [] ==> r == Err(RanDry) && free == []
      ensures old(free) != [] ==> r == Ok(old(free)[0]) && free == old(free)[1..]
    {
      if front == back {
        return Err(RanDry);
      }
      TakeFront(queue[..], front, Distance(front, back, queue.Length));
      var tmp := queue[front];
      if tmp.None? {
        assert false;
      }
      queue[front] := None;
      free := free[1..];
      SlotIsRemainder(front, 1, poolSize + 1);
      front := (front + 1) % (poolSize + 1);
      return Ok(tmp.value);
    }

    method Push(id: nat) returns (r: Result<()>)
      requires Valid()
      modifies this`back, this`free, queue
      ensures Valid()
      ensures |old(free)| == poolSize ==> r == Err(Overflow) && free == old(free)
      ensures |old(free)| < poolSize ==> r == Ok(()) && free == old(free) + [id]
    {
      SlotIsRemainder(back, 1, poolSize + 1);
      if (back + 1) % (poolSize + 1) == front {
        return Err(Overflow);
      }
      PutBack(queue[..], front, Distance(front, back, queue.Length), id);
      if queue[back].Some? {
        assert false;
      }
      queue[back] := Some(id);
      free := free + [id];
      back := (back + 1) % (poolSize + 1);
      return Ok(());
    }
  }
}
