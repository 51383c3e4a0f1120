/** The sparse index over the dense per-node sums of completed work. */
module CompletionIndex {
  import opened Arithmetic
  import opened Finite

  const BYTE: nat := 256

  /** A successful completion: where the request went and what it carried. */
  datatype Done = Done(node: nat, bytes: nat, fc: nat)

  function BytesOf(batch: seq<Done>, node: nat): nat {
    if batch == [] then 0
    else BytesOf(batch[..|batch| - 1], node) + if batch[|batch| - 1].node == node then batch[|batch| - 1].bytes else 0
  }

  function FcOf(batch: seq<Done>, node: nat): nat {
    if batch == [] then 0
    else FcOf(batch[..|batch| - 1], node) + if batch[|batch| - 1].node == node then batch[|batch| - 1].fc else 0
  }

  lemma {:induction false} SumsConcat(a: seq<Done>, b: seq<Done>, node: nat)
    ensures BytesOf(a + b, node) == BytesOf(a, node) + BytesOf(b, node)
    ensures FcOf(a + b, node) == FcOf(a, node) + FcOf(b, node)
  {
    if b == [] {
      assert a + b == a;
    } else {
      assert (a + b)[..|a + b| - 1] == a + b[..|b| - 1];
      SumsConcat(a, b[..|b| - 1], node);
    }
  }

  /** Both sums as the unsigned 32-bit and 8-bit entries hold them are zero. */
  predicate EntryIsZero(batch: seq<Done>, node: nat) {
    BytesOf(batch, node) % WORD == 0 && FcOf(batch, node) % BYTE == 0
  }

  /** The node list after a batch: a node is appended whenever its entry is zero before it is added to. */
  function Listed(batch: seq<Done>): seq<nat> {
    if batch == [] then []
    else
      var before := batch[..|batch| - 1];
      var node := batch[|batch| - 1].node;
      if EntryIsZero(before, node) then Listed(before) + [node] else Listed(before)
  }

  /** The list names every node with a non-zero entry once and no other. */
  ghost predicate Exact(batch: seq<Done>) {
    Distinct(Listed(batch)) && forall v :: v in Listed(batch) <==> !EntryIsZero(batch, v)
  }

  ghost predicate Completed(batch: seq<Done>, node: nat) {
    exists i :: 0 <= i < |batch| && batch[i].node == node
  }

  /** No node's sums ever come back to zero. */
  ghost predicate NeverVanishes(batch: seq<Done>) {
    forall k, v :: 0 <= k <= |batch| && Completed(batch[..k], v) ==> !EntryIsZero(batch[..k], v)
  }

  lemma {:induction false} SumsOfAbsent(batch: seq<Done>, node: nat)
    requires !Completed(batch, node)
    ensures BytesOf(batch, node) == 0 && FcOf(batch, node) == 0
  {
    if batch != [] {
      assert batch[|batch| - 1].node != node;
      SumsOfAbsent(batch[..|batch| - 1], node);
    }
  }

  /** Every node of the batch is listed, whatever the sums do. */
  lemma {:induction false} ListedIsOccurring(batch: seq<Done>, node: nat)
    ensures node in Listed(batch) <==> Completed(batch, node)
  {
    if batch != [] {
      var before := batch[..|batch| - 1];
      ListedIsOccurring(before, node);
      if Completed(before, node) {
        var i :| 0 <= i < |before| && before[i].node == node;
        assert batch[i].node == node;
      }
      if batch[|batch| - 1].node == node && !Completed(before, node) {
        SumsOfAbsent(before, node);
      }
    }
  }

  /** The sparse reset reaches every non-zero entry. */
  lemma NonZeroIsListed(batch: seq<Done>, node: nat)
    requires !EntryIsZero(batch, node)
    ensures node in Listed(batch)
  {
    ListedIsOccurring(batch, node);
    if !Completed(batch, node) { SumsOfAbsent(batch, node); }
  }

  lemma {:induction false} VanishFreeIsExact(batch: seq<Done>)
    requires NeverVanishes(batch)
    ensures Exact(batch)
  {
    forall v ensures v in Listed(batch) <==> !EntryIsZero(batch, v) {
      ListedIsOccurring(batch, v);
      assert batch[..|batch|] == batch;
      if !Completed(batch, v) { SumsOfAbsent(batch, v); }
    }
    if batch != [] {
      var before := batch[..|batch| - 1];
      forall k, v | 0 <= k <= |before| && Completed(before[..k], v) ensures !EntryIsZero(before[..k], v) {
        assert before[..k] == batch[..k];
      }
      VanishFreeIsExact(before);
    }
  }

  /** The index is exact after every completion of a batch if and only if no node's wrapped sums come back
      to zero on the way. */
  lemma IndexExactly(batch: seq<Done>)
    ensures (forall k :: 0 <= k <= |batch| ==> Exact(batch[..k])) <==> NeverVanishes(batch)
  {
    if NeverVanishes(batch) {
      forall k | 0 <= k <= |batch| ensures Exact(batch[..k]) {
        forall j, v | 0 <= j <= k && Completed(batch[..k][..j], v) ensures !EntryIsZero(batch[..k][..j], v) {
          assert batch[..k][..j] == batch[..j];
        }
        VanishFreeIsExact(batch[..k]);
      }
    } else {
      var k, v :| 0 <= k <= |batch| && Completed(batch[..k], v) && EntryIsZero(batch[..k], v);
      ListedIsOccurring(batch[..k], v);
      assert !Exact(batch[..k]);
    }
  }

  lemma {:induction false} PrefixSums(batch: seq<Done>, k: nat, node: nat)
    requires k <= |batch|
    ensures BytesOf(batch[..k], node) <= BytesOf(batch, node) && FcOf(batch[..k], node) <= FcOf(batch, node)
  {
    if k < |batch| {
      PrefixSums(batch[..|batch| - 1], k, node);
      assert batch[..|batch| - 1][..k] == batch[..k];
    } else {
      assert batch[..k] == batch;
    }
  }

  lemma {:induction false} SumsOfOccurring(batch: seq<Done>, i: nat)
    requires i < |batch|
    ensures BytesOf(batch, batch[i].node) >= batch[i].bytes && FcOf(batch, batch[i].node) >= batch[i].fc
  {
    if i < |batch| - 1 { SumsOfOccurring(batch[..|batch| - 1], i); }
  }

  /** Sums that fit their entries, of requests that carry something, never vanish. */
  lemma FittingNeverVanishes(batch: seq<Done>)
    requires forall i :: 0 <= i < |batch| ==> batch[i].bytes + batch[i].fc > 0
    requires forall v :: BytesOf(batch, v) < WORD && FcOf(batch, v) < BYTE
    ensures NeverVanishes(batch)
  {
    forall k, v | 0 <= k <= |batch| && Completed(batch[..k], v) ensures !EntryIsZero(batch[..k], v) {
      var i :| 0 <= i < k && batch[..k][i].node == v;
      SumsOfOccurring(batch[..k], i);
      PrefixSums(batch, k, v);
    }
  }

  /** Two flow control values of 128 to one node cancel out, and the node is listed twice. */
  lemma VanishingExample(node: nat)
    ensures var batch := [Done(node, 0, 128), Done(node, 0, 128), Done(node, 0, 1)];
            Listed(batch) == [node, node] && !Exact(batch)
  {
    var batch := [Done(node, 0, 128), Done(node, 0, 128), Done(node, 0, 1)];
    var a, b := batch[..1], batch[..2];
    assert a[..0] == [] && b[..1] == a && batch[..|batch| - 1] == b;
    assert Listed(a) == [node] && FcOf(a, node) == 128 && BytesOf(a, node) == 0;
    assert Listed(b) == [node] && FcOf(b, node) == 256 && BytesOf(b, node) == 0;
    assert Listed(batch)[0] == Listed(batch)[1];
  }
}
