/** What a received message looks like: the adapter scatters it over the buffers of a receive work request,
    and the receive dispatcher works out again which buffer holds how much of it. */
module RecvBuffers {
  import opened Arithmetic
  import opened Finite
  import opened Rings
  import opened Streams

  /** A message as it arrives: sender, flow control value, and payload. */
  datatype Message = Message(source: nat, fc: nat, payload: seq<Byte>)

  /** A work completion together with the buffers of its work request. */
  datatype Work = Work(buffers: seq<nat>, source: nat, fc: nat, length: nat)

  /** An entry of the incoming ring buffer. */
  datatype Entry = Entry(source: nat, fc: nat, buffer: Option<nat>, length: nat)

  /** Buffer `i` of a pool with buffers of `size` bytes: a slice of the pool's memory region. */
  predicate InRegion(region: seq<Byte>, buffer: nat, size: nat) {
    buffer * size + size <= |region|
  }

  function Read(region: seq<Byte>, buffer: nat, size: nat, length: nat): seq<Byte>
    requires InRegion(region, buffer, size) && length <= size
  {
    region[buffer * size..buffer * size + length]
  }

  function Write(region: seq<Byte>, buffer: nat, size: nat, data: seq<Byte>): (after: seq<Byte>)
    requires InRegion(region, buffer, size) && |data| <= size
    ensures |after| == |region|
  {
    region[..buffer * size] + data + region[buffer * size + |data|..]
  }

  lemma Slices(region: seq<Byte>, buffers: seq<nat>, size: nat)
    requires AllInRegion(region, buffers, size) && buffers != []
    ensures InRegion(region, buffers[0], size)
    ensures forall after :: |after| == |region| ==> AllInRegion(after, buffers[1..], size)
  {
    assert buffers[0] in buffers;
    forall after | |after| == |region| ensures AllInRegion(after, buffers[1..], size) {
      forall b | b in buffers[1..] ensures InRegion(after, b, size) {
        assert b in buffers;
        assert InRegion(region, b, size);
      }
    }
  }

  /** Different buffers are disjoint slices. */
  lemma SlicesDisjoint(a: nat, b: nat, size: nat)
    requires a != b
    ensures a * size + size <= b * size || b * size + size <= a * size
  {
    var lo, hi := Min(a, b), if a < b then b else a;
    MulMonotone(lo + 1, hi, size);
    Distribute(lo, size);
  }

  lemma ReadOwnWrite(region: seq<Byte>, buffer: nat, size: nat, data: seq<Byte>)
    requires InRegion(region, buffer, size) && |data| <= size
    ensures Read(Write(region, buffer, size, data), buffer, size, |data|) == data
  {}

  lemma ReadOtherWrite(region: seq<Byte>, buffer: nat, size: nat, data: seq<Byte>, other: nat, length: nat)
    requires InRegion(region, buffer, size) && |data| <= size
    requires InRegion(region, other, size) && length <= size && other != buffer
    ensures Read(Write(region, buffer, size, data), other, size, length) == Read(region, other, size, length)
  {
    SlicesDisjoint(buffer, other, size);
  }

  ghost predicate AllInRegion(region: seq<Byte>, buffers: seq<nat>, size: nat) {
    forall b :: b in buffers ==> InRegion(region, b, size)
  }

  /** The adapter fills the buffers of a work request in order. */
  function Scatter(region: seq<Byte>, buffers: seq<nat>, size: nat, payload: seq<Byte>): (after: seq<Byte>)
    requires AllInRegion(region, buffers, size)
    ensures |after| == |region|
    decreases |buffers|
  {
    if buffers == [] then region
    else
      Slices(region, buffers, size);
      var k := Min(size, |payload|);
      Scatter(Write(region, buffers[0], size, payload[..k]), buffers[1..], size, payload[k..])
  }

  /** The entries the dispatcher makes of a message with data. */
  function DataEntries(source: nat, fc: nat, buffers: seq<nat>, size: nat, length: nat): (es: seq<Entry>)
    ensures |es| <= |buffers|
  {
    if buffers == [] then []
    else
      var k := if length >= size then size else length;
      [Entry(source, fc, Some(buffers[0]), k)]
      + if length - k == 0 then [] else DataEntries(source, 0, buffers[1..], size, length - k)
  }

  /** The entries of a completion: one without a buffer if there is only flow control data. */
  function Entries(w: Work, size: nat): seq<Entry> {
    if w.length == 0 then [Entry(w.source, w.fc, None, 0)]
    else DataEntries(w.source, w.fc, w.buffers, size, w.length)
  }

  /** The buffers that hold no data go back to the pool at once. */
  function Unused(w: Work, size: nat): seq<nat> {
    if w.length == 0 then w.buffers else w.buffers[|DataEntries(w.source, w.fc, w.buffers, size, w.length)|..]
  }

  function EntryBuffers(es: seq<Entry>): seq<nat> {
    if es == [] then []
    else (if es[0].buffer.Some? then [es[0].buffer.value] else []) + EntryBuffers(es[1..])
  }

  predicate Readable(region: seq<Byte>, e: Entry, size: nat) {
    e.buffer.Some? ==> InRegion(region, e.buffer.value, size) && e.length <= size
  }

  /** What the handler sees of an entry: the flow control value, then the data. */
  function EntryItems(region: seq<Byte>, e: Entry, size: nat): seq<Item>
    requires Readable(region, e, size)
  {
    Credit(e.source, e.fc)
    + if e.buffer.None? then [] else Marked(e.source, Read(region, e.buffer.value, size, e.length))
  }

  ghost predicate AllReadable(region: seq<Byte>, es: seq<Entry>, size: nat) {
    forall i :: 0 <= i < |es| ==> Readable(region, es[i], size)
  }

  function Items(region: seq<Byte>, es: seq<Entry>, size: nat): seq<Item>
    requires AllReadable(region, es, size)
  {
    if es == [] then [] else EntryItems(region, es[0], size) + Items(region, es[1..], size)
  }

  function MessageItems(m: Message): seq<Item> {
    Credit(m.source, m.fc) + Marked(m.source, m.payload)
  }

  /** What an entry shows is the flow control value, if there is one, and the first `length` bytes of its buffer. */
  lemma EntryBytes(region: seq<Byte>, e: Entry, size: nat)
    requires Readable(region, e, size)
    ensures CreditsIn(EntryItems(region, e, size)) == if e.fc == 0 then [] else [e.fc]
    ensures e.buffer.None? ==> DataIn(EntryItems(region, e, size)) == []
    ensures e.buffer.Some? ==>
              var start := e.buffer.value * size;
              && start + e.length <= |region|
              && DataIn(EntryItems(region, e, size)) == region[start..start + e.length]
    ensures forall i :: 0 <= i < |EntryItems(region, e, size)| ==> EntryItems(region, e, size)[i].node == e.source
  {
    if e.buffer.None? {
      assert Marked(e.source, []) == [];
      InBoth(e.source, e.fc, []);
    } else {
      InBoth(e.source, e.fc, Read(region, e.buffer.value, size, e.length));
    }
  }

  /** What a message is to show is its flow control value, if there is one, and its payload. */
  lemma MessageBytes(m: Message)
    ensures DataIn(MessageItems(m)) == m.payload
    ensures CreditsIn(MessageItems(m)) == if m.fc == 0 then [] else [m.fc]
    ensures forall i :: 0 <= i < |MessageItems(m)| ==> MessageItems(m)[i].node == m.source
  {
    InBoth(m.source, m.fc, m.payload);
  }

  /** Nothing outside the given buffers changes. */
  lemma {:induction false} ScatterFrame(region: seq<Byte>, buffers: seq<nat>, size: nat, payload: seq<Byte>,
                                        other: nat, length: nat)
    requires AllInRegion(region, buffers, size)
    requires InRegion(region, other, size) && length <= size && other !in buffers
    decreases |buffers|
    ensures Read(Scatter(region, buffers, size, payload), other, size, length) == Read(region, other, size, length)
  {
    if buffers != [] {
      Slices(region, buffers, size);
      assert buffers[0] in buffers;
      var k := Min(size, |payload|);
      ReadOtherWrite(region, buffers[0], size, payload[..k], other, length);
      ScatterFrame(Write(region, buffers[0], size, payload[..k]), buffers[1..], size, payload[k..], other, length);
    }
  }

  /** The entries name the leading buffers of the work request, in order. */
  lemma {:induction false} DataEntriesBuffers(source: nat, fc: nat, buffers: seq<nat>, size: nat, length: nat,
                                              es: seq<Entry>)
    requires es == DataEntries(source, fc, buffers, size, length)
    ensures EntryBuffers(es) == buffers[..|es|]
    ensures forall e :: e in es ==>
              e.source == source && e.length <= size && e.buffer.Some? && e.buffer.value in buffers
  {
    if buffers != [] {
      var k := if length >= size then size else length;
      if length - k == 0 {
        assert es[1..] == [];
      } else {
        DataEntriesBuffers(source, 0, buffers[1..], size, length - k, es[1..]);
      }
      assert buffers[..|es|] == [buffers[0]] + buffers[1..][..|es| - 1];
    }
  }

  lemma EntryShows(region: seq<Byte>, e: Entry, size: nat, buffer: nat)
    requires e.buffer == Some(buffer) && InRegion(region, buffer, size) && e.length <= size
    ensures Readable(region, e, size)
    ensures EntryItems(region, e, size)
         == Credit(e.source, e.fc) + Marked(e.source, Read(region, buffer, size, e.length))
  {}

  lemma ItemsOfOne(region: seq<Byte>, e: Entry, size: nat)
    requires Readable(region, e, size)
    ensures AllReadable(region, [e], size)
    ensures Items(region, [e], size) == EntryItems(region, e, size)
  {
    assert [e][1..] == [];
  }

  lemma ItemsCons(region: seq<Byte>, e: Entry, es: seq<Entry>, size: nat)
    requires Readable(region, e, size) && AllReadable(region, es, size)
    ensures AllReadable(region, [e] + es, size)
    ensures Items(region, [e] + es, size) == EntryItems(region, e, size) + Items(region, es, size)
  {
    assert ([e] + es)[1..] == es;
  }

  lemma {:induction false} ItemsConcat(region: seq<Byte>, a: seq<Entry>, b: seq<Entry>, size: nat)
    requires AllReadable(region, a, size) && AllReadable(region, b, size)
    ensures AllReadable(region, a + b, size)
    ensures Items(region, a + b, size) == Items(region, a, size) + Items(region, b, size)
  {
    hide EntryItems, Readable;
    if a == [] {
      assert a + b == b;
    } else {
      ItemsConcat(region, a[1..], b, size);
      ItemsCons(region, a[0], a[1..] + b, size);
      assert a + b == [a[0]] + (a[1..] + b);
    }
  }

  /** The first entry shows the start of the payload. */
  lemma HeadShows(region: seq<Byte>, buffers: seq<nat>, size: nat, payload: seq<Byte>, after: seq<Byte>, head: Entry)
    requires AllInRegion(region, buffers, size) && Distinct(buffers) && buffers != []
    requires after == Scatter(region, buffers, size, payload)
    requires head.buffer == Some(buffers[0]) && head.length == Min(size, |payload|)
    ensures Readable(after, head, size)
    ensures EntryItems(after, head, size) == Credit(head.source, head.fc) + Marked(head.source, payload[..head.length])
  {
    hide Write, Read, Credit, Marked;
    Slices(region, buffers, size);
    var k := head.length;
    var first := Write(region, buffers[0], size, payload[..k]);
    ReadOwnWrite(region, buffers[0], size, payload[..k]);
    ScatterFrame(first, buffers[1..], size, payload[k..], buffers[0], k);
    EntryShows(after, head, size, buffers[0]);
  }

  /** The bytes of a message, scattered over distinct buffers and read back through the entries, are the bytes
      that were sent, in order; the flow control value is seen once, before them. */
  lemma {:induction false} ScatterThenRead(region: seq<Byte>, source: nat, fc: nat, buffers: seq<nat>, size: nat,
                                           payload: seq<Byte>, after: seq<Byte>, es: seq<Entry>)
    requires AllInRegion(region, buffers, size)
    requires Distinct(buffers) && 0 < |payload| <= |buffers| * size
    requires after == Scatter(region, buffers, size, payload)
    requires es == DataEntries(source, fc, buffers, size, |payload|)
    decreases |buffers|
    ensures AllReadable(after, es, size)
    ensures Items(after, es, size) == Credit(source, fc) + Marked(source, payload)
  {
    hide Write, Credit, Marked, EntryItems, InRegion, AllInRegion, AllReadable, Readable, Items;
    assert |buffers| > 0 by { assert |buffers| == 0 ==> |buffers| * size == 0; }
    Slices(region, buffers, size);
    var k := Min(size, |payload|);
    var first := Write(region, buffers[0], size, payload[..k]);
    var head := Entry(source, fc, Some(buffers[0]), k);
    HeadShows(region, buffers, size, payload, after, head);
    if k == |payload| {
      assert payload[..k] == payload;
      assert es == [head];
      ItemsOfOne(after, head, size);
    } else {
      var tail := DataEntries(source, 0, buffers[1..], size, |payload| - k);
      Distribute(|buffers| - 1, size);
      ScatterThenRead(first, source, 0, buffers[1..], size, payload[k..], after, tail);
      assert es == [head] + tail;
      ItemsCons(after, head, tail, size);
      SplitPayload(source, fc, payload, k);
    }
  }

  lemma SplitPayload(source: nat, fc: nat, payload: seq<Byte>, k: nat)
    requires k <= |payload|
    ensures Credit(source, fc) + Marked(source, payload[..k]) + (Credit(source, 0) + Marked(source, payload[k..]))
         == Credit(source, fc) + Marked(source, payload)
  {
    MarkedConcat(source, payload[..k], payload[k..]);
    assert payload == payload[..k] + payload[k..];
  }

  /** Entries whose buffers are not written to show what they showed. */
  lemma {:induction false} ItemsFrame(region: seq<Byte>, buffers: seq<nat>, size: nat, payload: seq<Byte>,
                                      es: seq<Entry>)
    requires AllInRegion(region, buffers, size)
    requires AllReadable(region, es, size)
    requires forall b :: b in EntryBuffers(es) ==> b !in buffers
    ensures AllReadable(Scatter(region, buffers, size, payload), es, size)
    ensures Items(Scatter(region, buffers, size, payload), es, size) == Items(region, es, size)
  {
    if es != [] {
      if es[0].buffer.Some? {
        assert es[0].buffer.value in EntryBuffers(es);
        ScatterFrame(region, buffers, size, payload, es[0].buffer.value, es[0].length);
      }
      ItemsFrame(region, buffers, size, payload, es[1..]);
    }
  }
}
