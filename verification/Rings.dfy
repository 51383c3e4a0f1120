/** Circular arrays: the part of an array that starts at `front`, holds `count` slots and wraps
    around at the end. Every ring of the program (buffer pools, context pool, incoming ring
    buffer, job queue) is read through `Window`. */
module Rings {

  datatype Option<+T> = None | Some(value: T)

  /** The slot `offset` places after `front`, for `offset` not above the size. */
  function Slot(front: nat, offset: nat, size: nat): (k: nat)
    requires front < size && offset <= size
    ensures k < size
  {
    if front + offset < size then front + offset else front + offset - size
  }

  lemma SlotAtFront(front: nat, offset: nat, size: nat)
    requires front < size && offset <= size
    ensures Slot(front, offset, size) == front <==> offset == 0 || offset == size
  {}

  /** The remainder the code writes is the slot. */
  lemma SlotIsRemainder(front: nat, offset: nat, size: nat)
    requires front < size && offset <= size
    ensures (front + offset) % size == Slot(front, offset, size)
  {
    if front + offset < size {
      SmallRemainder(front + offset, size);
    } else {
      var k := front + offset - size;
      SmallRemainder(k, size);
      assert (k + size) % size == k % size by { AddModulus(k, size); }
    }
  }

  lemma SmallRemainder(k: nat, size: nat)
    requires k < size
    ensures k % size == k
  {}

  lemma AddModulus(k: int, size: nat)
    requires size > 0
    ensures (k + size) % size == k % size
  {
    var q := k / size;
    var r := k % size;
    assert k + size == (q + 1) * size + r;
    QuotientUnique(k + size, size, q + 1, r);
  }

  lemma QuotientUnique(k: int, size: nat, q: int, r: nat)
    requires r < size && k == q * size + r
    ensures k % size == r && k / size == q
  {
    var d := k / size - q;
    assert (k / size) * size + k % size == k;
    assert d * size == r - k % size;
    assert d >= 1 ==> d * size >= size;
    assert d <= -1 ==> d * size + size <= 0;
  }

  lemma SumRemainder(a: nat, b: nat, n: nat)
    requires n > 0
    ensures (a % n + b) % n == (a + b) % n
  {
    var q, r := (a % n + b) / n, (a % n + b) % n;
    assert a == a / n * n + a % n;
    assert a + b == (a / n + q) * n + r;
    QuotientUnique(a + b, n, a / n + q, r);
  }

  lemma SameSlot(a: nat, b: nat, n: nat)
    requires n > 0 && a <= b < a + n
    ensures a % n == b % n <==> a == b
  {
    var d := b / n - a / n;
    assert b - a == d * n + (b % n - a % n);
    assert d >= 1 ==> d * n >= n;
    assert d <= -1 ==> d * n + n <= 0;
  }

  /** Two different offsets below the size never meet in one slot. */
  lemma SlotInjective(front: nat, i: nat, j: nat, size: nat)
    requires front < size && i < size && j < size
    ensures Slot(front, i, size) == Slot(front, j, size) ==> i == j
  {}

  lemma SlotShift(front: nat, a: nat, b: nat, size: nat)
    requires front < size && a + b <= size
    ensures Slot(Slot(front, a, size), b, size) == Slot(front, a + b, size)
  {}

  /** How many places `to` lies after `from`. */
  function Distance(from: nat, to: nat, size: nat): (d: nat)
    requires from < size && to < size
    ensures d < size && Slot(from, d, size) == to
  {
    if from <= to then to - from else to - from + size
  }

  /** The distance shrinks as the front moves towards the back, and grows as the back moves on. */
  lemma DistanceMoves(from: nat, to: nat, n: nat, size: nat)
    requires from < size && to < size && n <= size
    ensures n <= Distance(from, to, size) ==> Distance(Slot(from, n, size), to, size) == Distance(from, to, size) - n
    ensures Distance(from, to, size) + n < size ==>
              Slot(to, n, size) == Slot(from, Distance(from, to, size) + n, size)
              && Distance(from, Slot(to, n, size), size) == Distance(from, to, size) + n
  {}

  lemma DistanceEmpty(from: nat, to: nat, size: nat)
    requires from < size && to < size
    ensures Distance(from, to, size) == 0 <==> from == to
  {}

  lemma CounterDistance(a: nat, b: nat, n: nat)
    requires n > 0 && a <= b < a + n
    ensures Distance(a % n, b % n, n) == b - a
  {
    SumRemainder(a, b - a, n);
    SlotIsRemainder(a % n, b - a, n);
    SlotInjective(a % n, b - a, Distance(a % n, b % n, n), n);
  }

  function Window<T>(slots: seq<T>, front: nat, count: nat): (w: seq<T>)
    requires front < |slots| && count <= |slots|
    ensures |w| == count
  {
    seq(count, i requires 0 <= i < count => slots[Slot(front, i, |slots|)])
  }

  /** Storing behind the window appends. */
  lemma WindowPush<T>(slots: seq<T>, front: nat, count: nat, x: T)
    requires front < |slots| && count < |slots|
    ensures Window(slots[Slot(front, count, |slots|) := x], front, count + 1) == Window(slots, front, count) + [x]
  {
    var after := slots[Slot(front, count, |slots|) := x];
    forall i | 0 <= i < count + 1
      ensures Window(after, front, count + 1)[i] == (Window(slots, front, count) + [x])[i]
    {
      SlotInjective(front, i, count, |slots|);
    }
  }

  /** Moving the front forward drops a prefix, whatever is left behind in the vacated slots. */
  lemma WindowDrop<T>(slots: seq<T>, after: seq<T>, front: nat, count: nat, n: nat)
    requires front < |slots| && n <= count <= |slots| && |after| == |slots|
    requires forall i :: n <= i < count ==> after[Slot(front, i, |slots|)] == slots[Slot(front, i, |slots|)]
    ensures Window(after, Slot(front, n, |slots|), count - n) == Window(slots, front, count)[n..]
  {
    var dropped := Window(after, Slot(front, n, |slots|), count - n);
    forall i | n <= i < count
      ensures dropped[i - n] == Window(slots, front, count)[i]
    {
      SlotShift(front, n, i - n, |slots|);
    }
    assert forall j :: 0 <= j < |dropped| ==> dropped[j] == dropped[(n + j) - n];
  }
}
