/** The ring that holds received entries until the handler has taken them. */
module IncomingRingBuffers {
  import opened Rings
  import opened RecvBuffers
  import opened WorkRequestPools

  /** `RanDry` stands for the underflow exception. */
  class IncomingRingBuffer {
    const size: nat
    const entries: array<Entry>
    var usedEntries: nat
    var front: nat
    var back: nat

    ghost predicate Valid()
      reads this, entries
    {
      && 0 < size == entries.Length
      && usedEntries <= size && front < size
      && back == Slot(front, usedEntries, size)
    }

    /** What the handler is shown: the entries from the front on. */
    ghost function Contents(): (es: seq<Entry>)
      requires Valid()
      reads this, entries
      ensures |es| == usedEntries
    {
      Window(entries[..], front, usedEntries)
    }

    constructor (numEntries: nat)
      requires numEntries > 0
      ensures Valid() && fresh(entries) && size == numEntries && Contents() == []
    {
      size := numEntries;
      entries := new Entry[numEntries](_ => Entry(0, 0, None, 0));
      usedEntries := 0;
      front := 0;
      back := 0;
    }

    function NumFreeEntries(): (free: nat)
      requires Valid()
      reads this, entries
      ensures free + |Contents()| == size
    {
      size - usedEntries
    }

    predicate IsEmpty(): (empty: bool)
      requires Valid()
      reads this, entries
      ensures empty <==> Contents() == []
    {
      usedEntries == 0
    }

    /** Filling in the back entry: seen by nobody before `PushBack`, unless the ring is full. */
    method SetBack(e: Entry)
      requires Valid()
      modifies entries
      ensures Valid() && entries[back] == e
      ensures usedEntries < size ==> Contents() == old(Contents())
    {
      if usedEntries < size {
        WindowPush(entries[..], front, usedEntries, e);
      }
      ghost var before := entries[..];
      entries[back] := e;
      if usedEntries < size {
        assert entries[..] == before[back := e];
        assert Window(entries[..], front, usedEntries + 1)[..usedEntries] == Contents();
      }
    }

    /** The ring takes an entry exactly if it is not full; the counter runs past the size if it is. */
    method PushBack() returns (r: Result<()>)
      requires Valid()
      modifies this`usedEntries, this`back
      ensures old(usedEntries) < size ==>
                r == Ok(()) && Valid() && Contents() == old(Contents()) + [old(entries[back])]
      ensures old(usedEntries) == size ==> r == Err(Overflow) && usedEntries == size + 1 && back == old(back)
    {
      usedEntries := usedEntries + 1;
      if usedEntries > size {
        return Err(Overflow);
      }
      SlotIsRemainder(back, 1, size);
      SlotShift(front, usedEntries - 1, 1, size);
      back := (back + 1) % size;
      return Ok(());
    }

    /** Takes `count` entries from the front, or nothing. */
    method PopFront(count: nat) returns (r: Result<()>)
      requires Valid()
      modifies this`usedEntries, this`front
      ensures Valid()
      ensures count <= |old(Contents())| ==> r == Ok(()) && Contents() == old(Contents())[count..]
      ensures count > |old(Contents())| ==> r == Err(RanDry) && Contents() == old(Contents())
    {
      if count > usedEntries {
        return Err(RanDry);
      }
      SlotIsRemainder(front, count, size);
      SlotShift(front, count, usedEntries - count, size);
      WindowDrop(entries[..], entries[..], front, usedEntries, count);
      usedEntries := usedEntries - count;
      front := (front + count) % size;
      return Ok(());
    }
  }
}
