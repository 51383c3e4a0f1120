/** How the send dispatcher cuts the filled area of a connection's circular send buffer into send
    work requests. The arithmetic is that of unsigned 32-bit integers. */
module SendChunks {
  import opened Arithmetic
  import opened Rings
  import opened Streams

  /** A contiguous piece of the send buffer. */
  datatype Sge = Sge(pos: U32, length: U32)

  /** A send work request: the pieces to gather, and the flow control value in its immediate data. */
  datatype Request = Request(sges: seq<Sge>, fc: U8)

  /** The area one request covers ends at `end`, after passing the end of the buffer if `wraps`. */
  datatype Area = Area(end: U32, wraps: bool)

  /** The seven-way case split over the positions. */
  function NextArea(size: U32, max: U32, back: U32, front: U32): Area {
    if back > front then
      if front == 0 then
        if Add32(back, max) > size then Area(size, false) else Area(Add32(back, max), false)
      else if Add32(back, max) <= size then
        Area(Add32(back, max), false)
      else
        var tail := Sub32(size, back);
        if Add32(front, tail) > max then Area(Sub32(max, tail), true) else Area(front, true)
    else
      if Add32(back, max) > front then Area(front, false) else Area(Add32(back, max), false)
  }

  function AreaSges(size: U32, back: U32, area: Area): seq<Sge> {
    if area.wraps then [Sge(back, Sub32(size, back)), Sge(0, area.end)] else [Sge(back, Sub32(area.end, back))]
  }

  function NextBack(size: U32, area: Area): U32 {
    if area.end == size then 0 else area.end
  }

  function BytesToProcess(size: U32, back: U32, front: U32): U32 {
    if back > front then Add32(Sub32(size, back), front) else Sub32(front, back)
  }

  predicate InBounds(sges: seq<Sge>, size: nat) {
    forall i :: 0 <= i < |sges| ==> sges[i].pos + sges[i].length <= size
  }

  function Piece(ring: seq<Byte>, s: Sge): seq<Byte>
    requires s.pos + s.length <= |ring|
  {
    ring[s.pos..s.pos + s.length]
  }

  /** What the adapter reads for a request: its pieces in order. */
  function Gather(ring: seq<Byte>, sges: seq<Sge>): seq<Byte>
    requires InBounds(sges, |ring|)
  {
    if sges == [] then [] else Piece(ring, sges[0]) + Gather(ring, sges[1..])
  }

  /** The filled area of the ring, from `back` up to `front`. */
  function Region(ring: seq<Byte>, back: nat, front: nat): seq<Byte>
    requires back < |ring| && front < |ring|
  {
    if back > front then ring[back..] + ring[..front] else ring[back..front]
  }

  ghost predicate Positions(size: U32, max: U32, back: U32, front: U32) {
    back < size && front < size && 0 < max
  }

  lemma BytesToProcessIsRegion(ring: seq<Byte>, back: U32, front: U32)
    requires |ring| < WORD && back < |ring| && front < |ring|
    ensures BytesToProcess(|ring|, back, front) == |Region(ring, back, front)|
  {}

  /** One request stays inside the send buffer exactly when its start plus the largest message does
      not overflow 32 bits. */
  lemma AreaInBoundsExactly(size: U32, max: U32, back: U32, front: U32)
    requires Positions(size, max, back, front) && back != front
    ensures InBounds(AreaSges(size, back, NextArea(size, max, back, front)), size) <==> back + max < WORD
  {
    var area := NextArea(size, max, back, front);
    var sges := AreaSges(size, back, area);
    if back + max < WORD {
      assert sges[0].pos + sges[0].length <= size;
      assert InBounds(sges, size);
    } else {
      assert Add32(back, max) == back + max - WORD < back;
      assert sges == [Sge(back, max)];
      assert sges[0] == Sge(back, max);
    }
  }

  /** `k` bytes from `back` onwards, around the end of the buffer if they pass it. */
  function NextSges(size: U32, back: U32, k: U32): seq<Sge>
    requires back < size && k <= size
  {
    if back + k <= size then [Sge(back, k)] else [Sge(back, size - back), Sge(0, back + k - size)]
  }

  /** Without overflow the seven cases are one: the request covers the `k` bytes behind `back`, with `k`
      the largest message or all that is left. */
  lemma AreaIsNextPiece(size: U32, max: U32, back: U32, front: U32)
    requires Positions(size, max, back, front) && back != front && back + max < WORD
    ensures var k := Min(max, BytesToProcess(size, back, front));
            var area := NextArea(size, max, back, front);
            && k <= size
            && AreaSges(size, back, area) == NextSges(size, back, k)
            && NextBack(size, area) == Slot(back, k, size)
  {
    assert Add32(back, max) == back + max;
    if back > front {
      var tail := Sub32(size, back);
      assert tail == size - back;
      assert Add32(front, tail) == front + tail;
    } else {
      assert Sub32(front, back) == front - back;
    }
  }

  lemma GatherOne(ring: seq<Byte>, s: Sge)
    requires s.pos + s.length <= |ring|
    ensures Gather(ring, [s]) == Piece(ring, s)
  {
    assert [s][1..] == [];
  }

  lemma GatherTwo(ring: seq<Byte>, s: Sge, t: Sge)
    requires s.pos + s.length <= |ring| && t.pos + t.length <= |ring|
    ensures Gather(ring, [s, t]) == Piece(ring, s) + Piece(ring, t)
  {
    assert [s, t][1..] == [t];
    GatherOne(ring, t);
  }

  /** The requests the prepare loop writes, with `slots` free places in the send queue. */
  function Cut(size: U32, max: U32, slots: nat, back: U32, front: U32, fc: U8): seq<Request> {
    if slots == 0 || (back == front && fc == 0) then []
    else if back == front then [Request([], fc)]
    else
      var area := NextArea(size, max, back, front);
      [Request(AreaSges(size, back, area), fc)]
      + Cut(size, max, slots - 1, NextBack(size, area), front, 0)
  }

  function Length(r: Request): nat { SgeBytes(r.sges) }

  function SgeBytes(sges: seq<Sge>): nat {
    if sges == [] then 0 else sges[0].length + SgeBytes(sges[1..])
  }

  function TotalLength(rs: seq<Request>): nat {
    if rs == [] then 0 else Length(rs[0]) + TotalLength(rs[1..])
  }

  /** The flow control units of all the requests. */
  function TotalUnits(rs: seq<Request>): nat {
    if rs == [] then 0 else rs[0].fc + TotalUnits(rs[1..])
  }

  lemma {:induction false} GatherLength(ring: seq<Byte>, sges: seq<Sge>)
    requires InBounds(sges, |ring|)
    ensures |Gather(ring, sges)| == SgeBytes(sges)
  {
    if sges != [] { GatherLength(ring, sges[1..]); }
  }

  predicate AllInBounds(rs: seq<Request>, size: nat) {
    forall i :: 0 <= i < |rs| ==> InBounds(rs[i].sges, size)
  }

  /** The concatenation of what the adapter reads for a list of requests. */
  function Payload(ring: seq<Byte>, rs: seq<Request>): seq<Byte>
    requires AllInBounds(rs, |ring|)
  {
    if rs == [] then [] else Gather(ring, rs[0].sges) + Payload(ring, rs[1..])
  }

  /** Number of data requests needed for `total` bytes. */
  function Pieces(total: nat, max: nat): nat
    requires max > 0
  {
    if total == 0 then 0 else 1 + Pieces(if total <= max then 0 else total - max, max)
  }

  lemma {:induction false} PiecesIsCeiling(total: nat, max: nat)
    requires max > 0
    ensures Pieces(total, max) == (total + max - 1) / max
  {
    if total == 0 {
      QuotientUnique(max - 1, max, 0, max - 1);
    } else if total <= max {
      QuotientUnique(total + max - 1, max, 1, total - 1);
    } else {
      PiecesIsCeiling(total - max, max);
      var q := (total - 1) / max;
      QuotientUnique(total + max - 1, max, q + 1, (total - 1) % max);
    }
  }

  /** The plan without the case split: cut `total` bytes behind `back` into messages of `max` bytes. */
  function Plan(size: U32, max: U32, slots: nat, back: U32, total: nat, fc: U8): seq<Request>
    requires back < size && 0 < max && total <= size
  {
    if slots == 0 || (total == 0 && fc == 0) then []
    else if total == 0 then [Request([], fc)]
    else
      var k := Min(max, total);
      [Request(NextSges(size, back, k), fc)] + Plan(size, max, slots - 1, Slot(back, k, size), total - k, 0)
  }

  /** The loop follows the plan whenever a full message behind any position fits into 32 bits. */
  lemma {:induction false} CutIsPlan(size: U32, max: U32, slots: nat, back: U32, front: U32, fc: U8)
    requires Positions(size, max, back, front) && size + max <= WORD
    ensures BytesToProcess(size, back, front) <= size
    ensures Cut(size, max, slots, back, front, fc)
         == Plan(size, max, slots, back, BytesToProcess(size, back, front), fc)
    decreases slots
  {
    if slots > 0 && back != front {
      AreaIsNextPiece(size, max, back, front);
      var back' := NextBack(size, NextArea(size, max, back, front));
      CutIsPlan(size, max, slots - 1, back', front, 0);
    }
  }

  /** The bytes: which part of the filled area the requests read, in order. */
  ghost predicate CarriesPrefix(ring: seq<Byte>, all: seq<Byte>, bytes: nat, rs: seq<Request>) {
    AllInBounds(rs, |ring|) && bytes <= |all| && Payload(ring, rs) == all[..bytes] && TotalLength(rs) == bytes
  }

  /** The shape: every request but the last is full and none is empty. */
  ghost predicate FullButLast(rs: seq<Request>, max: nat) {
    && (forall i :: 0 <= i < |rs| - 1 ==> Length(rs[i]) == max)
    && (forall i :: 0 <= i < |rs| ==> 0 < Length(rs[i]) <= max)
  }

  /** Only the request that passes the end of the buffer needs a second gather element. */
  ghost predicate OneWrap(rs: seq<Request>) {
    && (forall i :: 0 <= i < |rs| ==> 1 <= |rs[i].sges| <= 2)
    && (forall i, j :: 0 <= i < j < |rs| ==> |rs[i].sges| == 1 || |rs[j].sges| == 1)
  }

  ghost predicate CreditOnFirst(rs: seq<Request>, fc: U8) {
    forall i :: 0 <= i < |rs| ==> rs[i].fc == if i == 0 then fc else 0
  }

  /** `total` bytes of the ring behind `back`, around the end. */
  function Behind(ring: seq<Byte>, back: nat, total: nat): seq<Byte>
    requires back < |ring| && total <= |ring|
  {
    if back + total <= |ring| then ring[back..back + total] else ring[back..] + ring[..back + total - |ring|]
  }

  lemma RegionIsBehind(ring: seq<Byte>, back: U32, front: U32)
    requires |ring| < WORD && back < |ring| && front < |ring|
    ensures BytesToProcess(|ring|, back, front) <= |ring|
    ensures Region(ring, back, front) == Behind(ring, back, BytesToProcess(|ring|, back, front))
  {}

  lemma BehindSplits(ring: seq<Byte>, back: nat, total: nat, k: nat)
    requires back < |ring| && k <= total <= |ring|
    ensures Behind(ring, back, k) == Behind(ring, back, total)[..k]
    ensures Behind(ring, Slot(back, k, |ring|), total - k) == Behind(ring, back, total)[k..]
  {}

  lemma SgeBytesOfNext(size: U32, back: U32, k: U32, sges: seq<Sge>)
    requires back < size && k <= size && sges == NextSges(size, back, k)
    ensures SgeBytes(sges) == k
  {
    if back + k <= size {
      assert sges[1..] == [];
    } else {
      assert sges[1..] == [Sge(0, back + k - size)];
      assert sges[1..][1..] == [];
      assert SgeBytes(sges[1..]) == back + k - size;
    }
  }

  lemma NextSgesGather(ring: seq<Byte>, back: U32, k: U32, sges: seq<Sge>)
    requires |ring| < WORD && back < |ring| && 0 < k <= |ring| && sges == NextSges(|ring|, back, k)
    ensures InBounds(sges, |ring|) && Gather(ring, sges) == Behind(ring, back, k)
  {
    if back + k <= |ring| {
      assert sges == [Sge(back, k)];
      GatherOne(ring, sges[0]);
    } else {
      assert sges == [Sge(back, |ring| - back), Sge(0, back + k - |ring|)];
      GatherTwo(ring, sges[0], sges[1]);
    }
  }

  lemma PayloadStep(ring: seq<Byte>, all: seq<Byte>, k: nat, rest: nat, head: Request, tail: seq<Request>)
    requires k + rest <= |all| && InBounds(head.sges, |ring|) && Gather(ring, head.sges) == all[..k]
    requires CarriesPrefix(ring, all[k..], rest, tail) && Length(head) == k
    ensures CarriesPrefix(ring, all, k + rest, [head] + tail)
  {
    hide Gather, SgeBytes, InBounds;
    var rs := [head] + tail;
    assert rs[0] == head && rs[1..] == tail;
    assert AllInBounds(rs, |ring|) && Payload(ring, rs) == all[..k] + all[k..][..rest];
    assert all[..k] + all[k..][..rest] == all[..k + rest];
  }

  lemma NothingCarried(ring: seq<Byte>, all: seq<Byte>, rs: seq<Request>, fc: U8)
    requires rs == [] || rs == [Request([], fc)]
    ensures CarriesPrefix(ring, all, 0, rs)
  {
    assert rs == [] || rs[1..] == [];
  }

  lemma FitStep(total: nat, slots: nat, max: nat)
    requires slots > 0
    ensures Min(total, slots * max) == Min(max, total) + Min(total - Min(max, total), (slots - 1) * max)
  {
    assert slots * max == (slots - 1) * max + max && (slots - 1) * max >= 0;
  }

  lemma {:induction false} PlanCarries(ring: seq<Byte>, max: U32, slots: nat, back: U32, total: nat, fc: U8,
                                       rs: seq<Request>)
    requires |ring| < WORD && back < |ring| && 0 < max && total <= |ring|
    requires rs == Plan(|ring|, max, slots, back, total, fc)
    ensures CarriesPrefix(ring, Behind(ring, back, total), Min(total, slots * max), rs)
    decreases slots
  {
    hide CarriesPrefix, Gather, SgeBytes, InBounds;
    if slots == 0 || total == 0 {
      assert Min(total, slots * max) == 0 by { assert slots * max >= 0 && 0 * max == 0; }
      NothingCarried(ring, Behind(ring, back, total), rs, fc);
    } else {
      var k := Min(max, total);
      var tail := Plan(|ring|, max, slots - 1, Slot(back, k, |ring|), total - k, 0);
      var head := Request(NextSges(|ring|, back, k), fc);
      assert rs == [head] + tail;
      PlanCarries(ring, max, slots - 1, Slot(back, k, |ring|), total - k, 0, tail);
      NextSgesGather(ring, back, k, head.sges);
      SgeBytesOfNext(|ring|, back, k, head.sges);
      BehindSplits(ring, back, total, k);
      FitStep(total, slots, max);
      PayloadStep(ring, Behind(ring, back, total), k, Min(total - k, (slots - 1) * max), head, tail);
    }
  }

  lemma {:induction false} PlanIsFull(size: U32, max: U32, slots: nat, back: U32, total: nat, fc: U8)
    requires back < size && 0 < max && total <= size && (total > 0 || fc == 0)
    ensures |Plan(size, max, slots, back, total, fc)| == Min(slots, Pieces(total, max))
    ensures FullButLast(Plan(size, max, slots, back, total, fc), max)
    ensures CreditOnFirst(Plan(size, max, slots, back, total, fc), fc)
    decreases slots
  {
    if slots > 0 && total > 0 {
      var k := Min(max, total);
      var tail := Plan(size, max, slots - 1, Slot(back, k, size), total - k, 0);
      PlanIsFull(size, max, slots - 1, Slot(back, k, size), total - k, 0);
      SgeBytesOfNext(size, back, k, NextSges(size, back, k));
      var rs := [Request(NextSges(size, back, k), fc)] + tail;
      assert forall i :: 1 <= i < |rs| ==> rs[i] == tail[i - 1];
      assert k < max ==> tail == [];
    }
  }

  lemma {:induction false} PlanWrapsOnce(size: U32, max: U32, slots: nat, back: U32, total: nat, fc: U8)
    requires back < size && 0 < max && total <= size && (total > 0 || fc == 0)
    ensures OneWrap(Plan(size, max, slots, back, total, fc))
    ensures back + total <= size ==> forall r :: r in Plan(size, max, slots, back, total, fc) ==> |r.sges| == 1
    decreases slots
  {
    if slots > 0 && total > 0 {
      var k := Min(max, total);
      var tail := Plan(size, max, slots - 1, Slot(back, k, size), total - k, 0);
      PlanWrapsOnce(size, max, slots - 1, Slot(back, k, size), total - k, 0);
      var rs := [Request(NextSges(size, back, k), fc)] + tail;
      assert forall i :: 1 <= i < |rs| ==> rs[i] == tail[i - 1] && rs[i] in tail;
    }
  }

  /** For every ring, positions, queue depth and message size that fit into 32 bits, the requests carry
      the filled area from its back, in order, as far as the free slots allow. */
  lemma CutCarries(ring: seq<Byte>, max: U32, slots: nat, back: U32, front: U32, fc: U8)
    requires |ring| < WORD && Positions(|ring|, max, back, front) && |ring| + max <= WORD
    ensures CarriesPrefix(ring, Region(ring, back, front), Min(|Region(ring, back, front)|, slots * max),
              Cut(|ring|, max, slots, back, front, fc))
  {
    CutIsPlan(|ring|, max, slots, back, front, fc);
    RegionIsBehind(ring, back, front);
    PlanCarries(ring, max, slots, back, BytesToProcess(|ring|, back, front), fc,
      Cut(|ring|, max, slots, back, front, fc));
  }

  /** The number of requests is what the free slots and the filled area allow; all are full but the last;
      the flow control value rides on the first; at most one request gathers two pieces, and only if the
      filled area passes the end of the buffer. */
  lemma CutShape(size: U32, max: U32, slots: nat, back: U32, front: U32, fc: U8)
    requires Positions(size, max, back, front) && size + max <= WORD
    requires back != front || fc == 0
    ensures var rs := Cut(size, max, slots, back, front, fc);
            && |rs| == Min(slots, (BytesToProcess(size, back, front) + max - 1) / max)
            && FullButLast(rs, max) && CreditOnFirst(rs, fc) && OneWrap(rs)
            && (back <= front ==> forall r :: r in rs ==> |r.sges| == 1)
  {
    var total := BytesToProcess(size, back, front);
    CutIsPlan(size, max, slots, back, front, fc);
    PlanIsFull(size, max, slots, back, total, fc);
    PlanWrapsOnce(size, max, slots, back, total, fc);
    PiecesIsCeiling(total, max);
  }

  /** Cutting stops only when the places are used up or nothing is left, neither data nor flow control. */
  lemma CutStops(size: U32, max: U32, slots: nat, back: U32, front: U32, fc: U8)
    requires Positions(size, max, back, front) && size + max <= WORD
    ensures var rs := Cut(size, max, slots, back, front, fc);
            && |rs| <= slots && TotalLength(rs) <= BytesToProcess(size, back, front)
            && (|rs| == slots || (TotalLength(rs) == BytesToProcess(size, back, front) && (rs == [] ==> fc == 0)))
  {
    var rs, total := Cut(size, max, slots, back, front, fc), BytesToProcess(size, back, front);
    var ring: seq<Byte> := seq(size, _ => 0);
    CutCarries(ring, max, slots, back, front, fc);
    BytesToProcessIsRegion(ring, back, front);
    if back == front {
      assert rs == [] || rs == [Request([], fc)];
    } else {
      CutShape(size, max, slots, back, front, fc);
      if |rs| < slots { CeilingCovers(total, max, slots); }
    }
  }

  lemma CeilingCovers(total: nat, max: nat, slots: nat)
    requires max > 0 && (total + max - 1) / max < slots
    ensures total <= slots * max
  {
    var k := (total + max - 1) / max;
    WholeGroups(total + max - 1, max);
    MulMonotone(k + 1, slots, max);
  }

  /** The requests of a package carry its flow control value once, if there are any. */
  lemma {:induction false} CutUnits(size: U32, max: U32, slots: nat, back: U32, front: U32, fc: U8)
    ensures var rs := Cut(size, max, slots, back, front, fc); TotalUnits(rs) == if rs == [] then 0 else fc
  {
    if slots > 0 && back != front {
      var area := NextArea(size, max, back, front);
      var tail := Cut(size, max, slots - 1, NextBack(size, area), front, 0);
      CutUnits(size, max, slots - 1, NextBack(size, area), front, 0);
      var rs := [Request(AreaSges(size, back, area), fc)] + tail;
      assert rs[1..] == tail;
    } else if slots > 0 && fc > 0 {
      assert [Request([], fc)][1..] == [];
    }
  }

  /** No request is longer than the largest message, and none is empty. */
  lemma AreaLength(size: U32, max: U32, back: U32, front: U32)
    requires Positions(size, max, back, front) && back != front && size + max <= WORD
    ensures var area := NextArea(size, max, back, front);
            && 0 < SgeBytes(AreaSges(size, back, area)) <= max
            && |AreaSges(size, back, area)| <= 2
            && NextBack(size, area) < size
  {
    AreaIsNextPiece(size, max, back, front);
    var k := Min(max, BytesToProcess(size, back, front));
    SgeBytesOfNext(size, back, k, NextSges(size, back, k));
  }
}
