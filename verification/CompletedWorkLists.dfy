/** SendHandler::CompletedWorkList: dense per-node sums and the list of the nodes they are non-zero for. */
module CompletedWorkLists {
  import opened Arithmetic
  import opened CompletionIndex

  const NODE_ID_INVALID: nat := 0xFFFF

  /** The dense arrays hold the sums of a batch, as far as 32 and 8 bits do. */
  ghost predicate Sums(bytes: seq<nat>, fc: seq<nat>, batch: seq<Done>) {
    && |bytes| == |fc| == NODE_ID_INVALID
    && (forall v :: 0 <= v < |bytes| ==> bytes[v] == BytesOf(batch, v) % WORD && fc[v] == FcOf(batch, v) % BYTE)
  }

  lemma EnterSums(bytes: seq<nat>, fc: seq<nat>, batch: seq<Done>, done: Done)
    requires Sums(bytes, fc, batch) && done.node < NODE_ID_INVALID
    ensures var v := done.node;
            Sums(bytes[v := (bytes[v] + done.bytes) % WORD], fc[v := (fc[v] + done.fc) % BYTE], batch + [done])
  {
    Append(batch, done);
  }

  class CompletedWorkList {
    var numNodes: nat
    const numBytesWritten: array<nat>
    const fcDataWritten: array<nat>
    const nodeIds: array<nat>
    /** The completions entered since the last reset. */
    ghost var batch: seq<Done>

    ghost predicate Valid()
      reads this, numBytesWritten, fcDataWritten, nodeIds
    {
      && numBytesWritten != fcDataWritten && numBytesWritten != nodeIds && fcDataWritten != nodeIds
      && numNodes <= nodeIds.Length
      && nodeIds[..numNodes] == Listed(batch)
      && (forall i :: 0 <= i < |batch| ==> batch[i].node < NODE_ID_INVALID)
      && Sums(numBytesWritten[..], fcDataWritten[..], batch)
    }

    constructor (maxConnections: nat)
      ensures Valid() && batch == [] && nodeIds.Length == maxConnections
      ensures fresh(numBytesWritten) && fresh(fcDataWritten) && fresh(nodeIds)
    {
      numNodes := 0;
      numBytesWritten := new nat[NODE_ID_INVALID](_ => 0);
      fcDataWritten := new nat[NODE_ID_INVALID](_ => 0);
      nodeIds := new nat[maxConnections](_ => NODE_ID_INVALID);
      batch := [];
      new;
      assert nodeIds[..0] == [];
    }

    /** Entering one completion. The list of node ids has room for one entry per connection; the code writes past its
        end without a check when more are needed, where the model stops and says so. */
    method Add(done: Done) returns (fits: bool)
      requires Valid() && done.node < NODE_ID_INVALID && done.bytes < WORD && done.fc < BYTE
      modifies this, numBytesWritten, fcDataWritten, nodeIds
      ensures fits <==> |Listed(old(batch) + [done])| <= nodeIds.Length
      ensures Valid() && batch == if fits then old(batch) + [done] else old(batch)
      ensures fits ==>
                && numBytesWritten[done.node] == (old(numBytesWritten[done.node]) + done.bytes) % 0x1_0000_0000
                && fcDataWritten[done.node] == (old(fcDataWritten[done.node]) + done.fc) % 0x100
                && (forall v :: 0 <= v < NODE_ID_INVALID && v != done.node ==>
                     numBytesWritten[v] == old(numBytesWritten[v]) && fcDataWritten[v] == old(fcDataWritten[v]))
      ensures fits ==>
                if old(numBytesWritten[done.node]) == 0 && old(fcDataWritten[done.node]) == 0
                then numNodes == old(numNodes) + 1 && nodeIds[..numNodes] == old(nodeIds[..numNodes]) + [done.node]
                else numNodes == old(numNodes) && nodeIds[..numNodes] == old(nodeIds[..numNodes])
      ensures !fits ==> old(numNodes) == nodeIds.Length
    {
      var v := done.node;
      Append(batch, done);
      EnterSums(numBytesWritten[..], fcDataWritten[..], batch, done);
      if numBytesWritten[v] == 0 && fcDataWritten[v] == 0 {
        if numNodes == nodeIds.Length {
          return false;
        }
        nodeIds[numNodes] := v;
        numNodes := numNodes + 1;
      }
      numBytesWritten[v] := (numBytesWritten[v] + done.bytes) % WORD;
      fcDataWritten[v] := (fcDataWritten[v] + done.fc) % BYTE;
      batch := batch + [done];
      return true;
    }

    /** Clearing only the listed entries makes the whole dense arrays zero. */
    method Reset()
      requires Valid()
      modifies this, numBytesWritten, fcDataWritten, nodeIds
      ensures Valid() && batch == [] && numNodes == 0
      ensures forall v :: 0 <= v < NODE_ID_INVALID ==> numBytesWritten[v] == 0 && fcDataWritten[v] == 0
    {
      ghost var listed := nodeIds[..numNodes];
      forall v | 0 <= v < NODE_ID_INVALID && v !in listed ensures EntryIsZero(batch, v) {
        if !EntryIsZero(batch, v) { NonZeroIsListed(batch, v); }
      }
      forall i | 0 <= i < numNodes ensures listed[i] < NODE_ID_INVALID {
        ListedIsOccurring(batch, listed[i]);
      }
      var n := numNodes;
      for i := 0 to n
        invariant n == numNodes
        invariant forall j :: i <= j < n ==> nodeIds[j] == listed[j]
        invariant forall v :: 0 <= v < NODE_ID_INVALID && v !in listed[i..] ==>
                    numBytesWritten[v] == 0 && fcDataWritten[v] == 0
      {
        assert listed[i..] == [listed[i]] + listed[i + 1..];
        numBytesWritten[nodeIds[i]] := 0;
        fcDataWritten[nodeIds[i]] := 0;
        nodeIds[i] := NODE_ID_INVALID;
      }
      numNodes := 0;
      batch := [];
      assert nodeIds[..0] == [];
    }
  }

  lemma Append(batch: seq<Done>, done: Done)
    ensures forall u :: BytesOf(batch + [done], u) == BytesOf(batch, u) + if done.node == u then done.bytes else 0
    ensures forall u :: FcOf(batch + [done], u) == FcOf(batch, u) + if done.node == u then done.fc else 0
    ensures Listed(batch + [done]) == Listed(batch) + if EntryIsZero(batch, done.node) then [done.node] else []
  {
    var after := batch + [done];
    assert after[..|after| - 1] == batch;
  }
}
