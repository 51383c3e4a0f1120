/** Receive work requests: which object stands for which SGE list, and where every object is. */
module RecvRequests {
  import opened Arithmetic
  import opened Finite
  import opened Rings
  import opened Streams
  import opened RecvBuffers
  import opened RecvRuns

  /** A successful work completion: the index of its work request object, and what the adapter reports. */
  datatype Completion = Completion(request: nat, source: nat, fc: nat, length: nat)

  function Ids(cs: seq<Completion>): (ids: seq<nat>)
    ensures |ids| == |cs|
  {
    if cs == [] then [] else [cs[0].request] + Ids(cs[1..])
  }

  /** The SGE list of work request object `id`. */
  function Sgl(id: nat, requests: seq<seq<nat>>): seq<nat> {
    if id < |requests| then requests[id] else []
  }

  /** Work requests that have no successor. */
  ghost predicate Unlinked(links: seq<Option<nat>>, ids: seq<nat>) {
    forall i :: 0 <= i < |ids| ==> ids[i] < |links| && links[ids[i]] == None
  }

  /** From the first of the work requests the links lead through all of them, in order, and end there. */
  ghost predicate Linked(links: seq<Option<nat>>, ids: seq<nat>) {
    forall i :: 0 <= i < |ids| ==>
      ids[i] < |links| && links[ids[i]] == if i < |ids| - 1 then Some(ids[i + 1]) else None
  }

  lemma NoLinks(links: seq<Option<nat>>)
    ensures Unlinked(links, [])
  {}

  lemma UnlinkedPush(links: seq<Option<nat>>, ids: seq<nat>, id: nat)
    requires Unlinked(links, ids) && id < |links|
    ensures Unlinked(links[id := None], ids + [id])
  {}

  /** The work a completion stands for, given the SGE lists of the work request objects. */
  function WorkOf(completion: Completion, requests: seq<seq<nat>>): Work {
    Work(Sgl(completion.request, requests), completion.source, completion.fc, completion.length)
  }

  function WorksOf(cs: seq<Completion>, requests: seq<seq<nat>>): (ws: seq<Work>)
    ensures |ws| == |cs|
  {
    if cs == [] then [] else [WorkOf(cs[0], requests)] + WorksOf(cs[1..], requests)
  }

  function BuffersOf(ids: seq<nat>, requests: seq<seq<nat>>): (buffers: seq<seq<nat>>)
    ensures |buffers| == |ids|
  {
    if ids == [] then [] else [Sgl(ids[0], requests)] + BuffersOf(ids[1..], requests)
  }

  lemma {:induction false} WorksFrame(cs: seq<Completion>, requests: seq<seq<nat>>, id: nat, buffers: seq<nat>)
    requires id < |requests| && id !in Ids(cs)
    ensures WorksOf(cs, requests[id := buffers]) == WorksOf(cs, requests)
  {
    if cs != [] {
      assert Ids(cs) == [cs[0].request] + Ids(cs[1..]);
      WorksFrame(cs[1..], requests, id, buffers);
    }
  }

  lemma {:induction false} BuffersFrame(ids: seq<nat>, requests: seq<seq<nat>>, id: nat, buffers: seq<nat>)
    requires id < |requests| && id !in ids
    ensures BuffersOf(ids, requests[id := buffers]) == BuffersOf(ids, requests)
  {
    if ids != [] {
      BuffersFrame(ids[1..], requests, id, buffers);
    }
  }

  lemma {:induction false} BuffersPush(ids: seq<nat>, requests: seq<seq<nat>>, id: nat)
    ensures BuffersOf(ids + [id], requests) == BuffersOf(ids, requests) + [Sgl(id, requests)]
  {
    if ids == [] {
      assert [id][1..] == [];
    } else {
      ConcatTail(ids, [id]);
      BuffersPush(ids[1..], requests, id);
    }
  }

  /** Every work request object is in the pool, in an unprocessed completion, or with the adapter. */
  ghost predicate OneUse(free: seq<nat>, work: seq<nat>, outstanding: seq<nat>, n: nat) {
    forall x: nat :: Occurs(free, x) + Occurs(work, x) + Occurs(outstanding, x) == if x < n then 1 else 0
  }

  lemma UseIds(free: seq<nat>, work: seq<nat>, outstanding: seq<nat>, n: nat)
    requires OneUse(free, work, outstanding, n)
    ensures forall i :: i in free || i in work || i in outstanding ==> i < n
    ensures free != [] ==> free[0] !in work && free[0] !in outstanding
  {
    forall i: nat
      ensures i in free || i in work || i in outstanding ==> i < n
      ensures i in free ==> i !in work && i !in outstanding
    {
      OccursIn(free, i);
      OccursIn(work, i);
      OccursIn(outstanding, i);
      assert Occurs(free, i) + Occurs(work, i) + Occurs(outstanding, i) == if i < n then 1 else 0;
    }
  }

  lemma UsePop(free: seq<nat>, work: seq<nat>, outstanding: seq<nat>, n: nat)
    requires OneUse(free, work, outstanding, n) && free != []
    ensures OneUse(free[1..], work, outstanding + [free[0]], n)
  {
    forall x: nat
      ensures Occurs(free[1..], x) + Occurs(work, x) + Occurs(outstanding + [free[0]], x) == if x < n then 1 else 0
    {
      OccursConcat(outstanding, [free[0]], x);
      OccursConcat([free[0]], free[1..], x);
      assert free == [free[0]] + free[1..];
    }
  }

  lemma UsePush(free: seq<nat>, work: seq<nat>, outstanding: seq<nat>, n: nat)
    requires OneUse(free, work, outstanding, n) && work != []
    ensures OneUse(free + [work[0]], work[1..], outstanding, n)
  {
    forall x: nat
      ensures Occurs(free + [work[0]], x) + Occurs(work[1..], x) + Occurs(outstanding, x) == if x < n then 1 else 0
    {
      OccursConcat(free, [work[0]], x);
      OccursConcat([work[0]], work[1..], x);
      assert work == [work[0]] + work[1..];
    }
  }

  lemma UseEarlier(free: seq<nat>, work: seq<nat>, outstanding: seq<nat>, n: nat, to: nat, from: nat)
    requires OneUse(free, work, outstanding, n) && to <= from < |outstanding|
    ensures OneUse(free, work, Earlier(outstanding, to, from), n)
  {
    hide Earlier;
    forall x: nat
      ensures Occurs(free, x) + Occurs(work, x) + Occurs(Earlier(outstanding, to, from), x) == if x < n then 1 else 0
    {
      OccursEarlier(outstanding, to, from, x);
    }
  }

  lemma {:induction false} BuffersAt(ids: seq<nat>, requests: seq<seq<nat>>, k: nat)
    requires k < |ids|
    ensures BuffersOf(ids, requests)[k] == Sgl(ids[k], requests)
  {
    if k > 0 { BuffersAt(ids[1..], requests, k - 1); }
  }

  lemma BuffersEarlier(ids: seq<nat>, requests: seq<seq<nat>>, to: nat, from: nat)
    requires to <= from < |ids|
    ensures BuffersOf(Earlier(ids, to, from), requests) == Earlier(BuffersOf(ids, requests), to, from)
  {
    hide BuffersOf;
    forall k | 0 <= k < |ids|
      ensures BuffersOf(Earlier(ids, to, from), requests)[k] == Earlier(BuffersOf(ids, requests), to, from)[k]
    {
      BuffersAt(Earlier(ids, to, from), requests, k);
      BuffersAt(ids, requests, if k == to then from else if to < k <= from then k - 1 else k);
    }
  }

  /** A work request that completes comes before those that are only posted. */
  lemma ListsEarlier(cq: seq<Work>, w: Work, posted: seq<seq<nat>>, place: nat)
    requires place < |posted| && w.buffers == posted[place]
    ensures Lists(cq + [w]) + Without(posted, place) == Earlier(Lists(cq) + posted, |cq|, |cq| + place)
  {}

  lemma UsePoll(free: seq<nat>, outstanding: seq<nat>, k: nat, n: nat)
    requires OneUse(free, [], outstanding, n) && k <= |outstanding|
    ensures OneUse(free, outstanding[..k], outstanding[k..], n)
  {
    forall x: nat
      ensures Occurs(free, x) + Occurs(outstanding[..k], x) + Occurs(outstanding[k..], x) == if x < n then 1 else 0
    {
      OccursConcat(outstanding[..k], outstanding[k..], x);
      assert outstanding == outstanding[..k] + outstanding[k..];
      assert Occurs<nat>([], x) == 0;
    }
  }

  lemma LengthOfWork(completion: Completion, requests: seq<seq<nat>>)
    ensures var w := WorkOf(completion, requests); w.length == completion.length && w.fc == completion.fc
  {}

  lemma GroupsEnd(total: nat, n: nat, queued: nat, toQueue: nat)
    requires n > 0 && queued <= toQueue && queued * n <= total < queued * n + n
    ensures Requests(total, n, toQueue) == queued
  {
    QuotientUnique(total, n, queued, total - queued * n);
  }

  lemma GroupsAll(total: nat, n: nat, toQueue: nat)
    requires n > 0 && toQueue * n <= total
    ensures Requests(total, n, toQueue) == toQueue
  {
    WholeGroups(total, n);
    if total / n < toQueue { MulMonotone(total / n + 1, toQueue, n); }
  }

  lemma SlicePrefix<T>(s: seq<T>, got: nat, a: nat, n: nat)
    requires a + n <= got <= |s|
    ensures s[..got][a..a + n] == s[a..a + n]
  {}

  /** What a refill posts and gives back, computed from the buffers it took. */
  lemma LeftOver(c: Setup, free: seq<nat>, refs: seq<nat>, pending: nat, count: nat, used: int)
    requires c.Valid() && pending < c.queueSize && refs <= free && Refilled(c, free, pending, |refs|)
    requires count == Requests(|refs|, c.maxSges, c.queueSize - pending) && used == count * c.maxSges
    ensures count == RefillCount(c, pending, |refs|) && 0 <= used <= |refs|
    ensures Groups(refs, c.maxSges, count) == RefillPosted(c, free, pending, |refs|)
    ensures free[|refs|..] + refs[used..] == RefillPool(c, free, pending, |refs|)
    ensures used == |refs| ==> free[|refs|..] == RefillPool(c, free, pending, |refs|)
  {
    hide Requests, Refilled, Groups;
    MulMonotone(0, count, c.maxSges);
    assert refs == free[..|refs|];
    GroupsOfPrefix(free, |refs|, c.maxSges, count);
    assert refs[used..] == free[used..|refs|];
  }

  lemma {:induction false} GroupsOfPrefix(buffers: seq<nat>, got: nat, n: nat, count: nat)
    requires count * n <= got <= |buffers|
    ensures Groups(buffers[..got], n, count) == Groups(buffers, n, count)
  {
    if count > 0 {
      Distribute(count - 1, n);
      GroupsOfPrefix(buffers, got, n, count - 1);
      SlicePrefix(buffers, got, (count - 1) * n, n);
    }
  }

  lemma RoomForOne(a: nat, b: nat)
    requires a > 0 && b > 0
    ensures a * b > 0
  {}

  /** The SGE lists of completed work, in order. */
  function Lists(ws: seq<Work>): (lists: seq<seq<nat>>)
    ensures |lists| == |ws| && forall i :: 0 <= i < |ws| ==> lists[i] == ws[i].buffers
  {
    seq(|ws|, i requires 0 <= i < |ws| => ws[i].buffers)
  }

  lemma {:induction false} TakeCompletions(cs: seq<Completion>, requests: seq<seq<nat>>, k: nat)
    requires k <= |cs|
    ensures Ids(cs[..k]) == Ids(cs)[..k] && WorksOf(cs[..k], requests) == WorksOf(cs, requests)[..k]
  {
    hide WorkOf;
    if k > 0 {
      TakeCompletions(cs[1..], requests, k - 1);
      assert cs[..k][1..] == cs[1..][..k - 1];
    }
  }

  lemma {:induction false} DropBuffers(ids: seq<nat>, requests: seq<seq<nat>>, k: nat)
    requires k <= |ids|
    ensures BuffersOf(ids[k..], requests) == BuffersOf(ids, requests)[k..]
  {
    if k > 0 {
      DropBuffers(ids[1..], requests, k - 1);
      assert ids[k..] == ids[1..][k - 1..];
    } else {
      assert ids[0..] == ids;
    }
  }

  lemma {:induction false} WorkLengths(cs: seq<Completion>, requests: seq<seq<nat>>)
    ensures forall i :: 0 <= i < |cs| ==>
              WorksOf(cs, requests)[i].length == cs[i].length && WorksOf(cs, requests)[i].fc == cs[i].fc
  {
    if cs != [] {
      WorkLengths(cs[1..], requests);
      forall i | 0 <= i < |cs|
        ensures WorksOf(cs, requests)[i].length == cs[i].length && WorksOf(cs, requests)[i].fc == cs[i].fc
      {
        if i > 0 { assert WorksOf(cs, requests)[i] == WorksOf(cs[1..], requests)[i - 1]; }
      }
    }
  }
}
