/** What travels: bytes and flow control units, each marked with the node it came from. */
module Streams {

  newtype Byte = x: int | 0 <= x < 256

  datatype Item = Data(node: nat, byte: Byte) | FlowControl(node: nat, units: nat)

  /** `bytes`, each marked with the node that sent it. */
  function Marked(node: nat, bytes: seq<Byte>): (items: seq<Item>)
    ensures |items| == |bytes|
  {
    seq(|bytes|, i requires 0 <= i < |bytes| => Data(node, bytes[i]))
  }

  /** A flow control value of zero is no event. */
  function Credit(node: nat, units: nat): seq<Item> {
    if units == 0 then [] else [FlowControl(node, units)]
  }

  lemma MarkedConcat(node: nat, a: seq<Byte>, b: seq<Byte>)
    ensures Marked(node, a + b) == Marked(node, a) + Marked(node, b)
  {}

  lemma ConcatTail<T>(a: seq<T>, b: seq<T>)
    requires a != []
    ensures (a + b)[0] == a[0] && (a + b)[1..] == a[1..] + b
  {}

  lemma Associative<T>(a: seq<T>, b: seq<T>, c: seq<T>)
    ensures a + b + c == a + (b + c)
  {}

  function Flatten<T>(parts: seq<seq<T>>): seq<T> {
    if parts == [] then [] else parts[0] + Flatten(parts[1..])
  }

  lemma {:induction false} FlattenConcat<T>(a: seq<seq<T>>, b: seq<seq<T>>)
    ensures Flatten(a + b) == Flatten(a) + Flatten(b)
  {
    if a == [] {
      assert a + b == b;
    } else {
      FlattenConcat(a[1..], b);
      ConcatTail(a, b);
      Associative(a[0], Flatten(a[1..]), Flatten(b));
    }
  }

  lemma FlattenPush<T>(parts: seq<seq<T>>, part: seq<T>)
    ensures Flatten(parts + [part]) == Flatten(parts) + part
  {
    FlattenConcat(parts, [part]);
    assert [part][1..] == [];
  }

  /** The part of a stream that comes from one node. */
  function From(node: nat, items: seq<Item>): (own: seq<Item>)
    ensures forall i :: 0 <= i < |own| ==> own[i].node == node
  {
    if items == [] then []
    else (if items[0].node == node then [items[0]] else []) + From(node, items[1..])
  }

  lemma {:induction false} FromConcat(node: nat, a: seq<Item>, b: seq<Item>)
    ensures From(node, a + b) == From(node, a) + From(node, b)
  {
    if a == [] {
      assert a + b == b;
    } else {
      FromConcat(node, a[1..], b);
      ConcatTail(a, b);
    }
  }

  /** A stream that only comes from one node is all or nothing. */
  lemma {:induction false} FromSingle(node: nat, other: nat, items: seq<Item>)
    requires forall i :: 0 <= i < |items| ==> items[i].node == other
    ensures From(node, items) == if node == other then items else []
  {
    if items != [] { FromSingle(node, other, items[1..]); }
  }

  /** The bytes of a stream, and its flow control values. */
  function DataIn(items: seq<Item>): seq<Byte> {
    if items == [] then [] else (if items[0].Data? then [items[0].byte] else []) + DataIn(items[1..])
  }

  function CreditsIn(items: seq<Item>): seq<nat> {
    if items == [] then [] else (if items[0].FlowControl? then [items[0].units] else []) + CreditsIn(items[1..])
  }

  lemma {:induction false} InConcat(a: seq<Item>, b: seq<Item>)
    ensures DataIn(a + b) == DataIn(a) + DataIn(b) && CreditsIn(a + b) == CreditsIn(a) + CreditsIn(b)
  {
    if a == [] {
      assert a + b == b;
    } else {
      ConcatTail(a, b);
      InConcat(a[1..], b);
      Associative(if a[0].Data? then [a[0].byte] else [], DataIn(a[1..]), DataIn(b));
      Associative(if a[0].FlowControl? then [a[0].units] else [], CreditsIn(a[1..]), CreditsIn(b));
    }
  }

  lemma InPrefix(a: seq<Item>, b: seq<Item>)
    requires a <= b
    ensures DataIn(a) <= DataIn(b) && CreditsIn(a) <= CreditsIn(b)
  {
    assert b == a + b[|a|..];
    InConcat(a, b[|a|..]);
  }

  /** Marking loses nothing. */
  lemma {:induction false} InMarked(node: nat, bytes: seq<Byte>)
    ensures DataIn(Marked(node, bytes)) == bytes && CreditsIn(Marked(node, bytes)) == []
  {
    if bytes != [] {
      assert Marked(node, bytes)[1..] == Marked(node, bytes[1..]);
      InMarked(node, bytes[1..]);
      assert bytes == [bytes[0]] + bytes[1..];
    }
  }

  lemma InCredit(node: nat, units: nat)
    ensures DataIn(Credit(node, units)) == [] && CreditsIn(Credit(node, units)) == if units == 0 then [] else [units]
  {
    if units > 0 { assert Credit(node, units)[1..] == []; }
  }

  /** A flow control value and bytes behind it. */
  lemma InBoth(node: nat, units: nat, bytes: seq<Byte>)
    ensures DataIn(Credit(node, units) + Marked(node, bytes)) == bytes
    ensures CreditsIn(Credit(node, units) + Marked(node, bytes)) == if units == 0 then [] else [units]
  {
    InConcat(Credit(node, units), Marked(node, bytes));
    InCredit(node, units);
    InMarked(node, bytes);
  }
}
