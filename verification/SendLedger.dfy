/** What the send dispatcher knows about its requests in flight: the contexts that are out of the pool. */
module SendLedger {
  import opened Arithmetic

  /** SendWorkRequestCtx; the fields for debugging are left out. */
  datatype Context = Context(target: nat, fc: nat, sendSize: nat)

  /** Bytes and flow control units. */
  datatype Amount = Amount(bytes: nat, units: nat)
  {
    function Plus(other: Amount): Amount { Amount(bytes + other.bytes, units + other.units) }
  }

  const NOTHING := Amount(0, 0)

  lemma PlusNothing(a: Amount)
    ensures a.Plus(NOTHING) == a
  {}

  lemma PlusMoves(a: Amount, b: Amount, c: Amount)
    ensures a.Plus(b).Plus(c) == a.Plus(b.Plus(c)) == a.Plus(c).Plus(b)
  {}

  function Carried(x: Context): Amount { Amount(x.sendSize, x.fc) }

  function ForNode(flight: set<nat>, contexts: seq<Context>, node: nat): set<nat>
    requires forall c :: c in flight ==> c < |contexts|
  {
    set c | c in flight && contexts[c].target == node
  }

  /** What is on the way to `node` in the contexts below `n`. */
  function UnderwayBelow(n: nat, flight: set<nat>, contexts: seq<Context>, node: nat): Amount
    requires n <= |contexts|
  {
    if n == 0 then NOTHING
    else
      var below := UnderwayBelow(n - 1, flight, contexts, node);
      if n - 1 in flight && contexts[n - 1].target == node then below.Plus(Carried(contexts[n - 1])) else below
  }

  function Underway(flight: set<nat>, contexts: seq<Context>, node: nat): Amount {
    UnderwayBelow(|contexts|, flight, contexts, node)
  }

  lemma {:induction false} UnderwayFrame(n: nat, f: set<nat>, f': set<nat>, contexts: seq<Context>,
                                      contexts': seq<Context>, node: nat)
    requires n <= |contexts| && n <= |contexts'|
    requires forall c :: 0 <= c < n ==> (c in f <==> c in f') && (c in f ==> contexts[c] == contexts'[c])
    ensures UnderwayBelow(n, f, contexts, node) == UnderwayBelow(n, f', contexts', node)
  {
    if n > 0 { UnderwayFrame(n - 1, f, f', contexts, contexts', node); }
  }

  lemma {:induction false} UnderwayAdd(n: nat, flight: set<nat>, contexts: seq<Context>, c: nat, x: Context, node: nat)
    requires c < n <= |contexts| && c !in flight
    ensures UnderwayBelow(n, flight + {c}, contexts[c := x], node)
         == UnderwayBelow(n, flight, contexts, node).Plus(if x.target == node then Carried(x) else NOTHING)
  {
    if c == n - 1 {
      UnderwayFrame(n - 1, flight, flight + {c}, contexts, contexts[c := x], node);
    } else {
      UnderwayAdd(n - 1, flight, contexts, c, x, node);
    }
  }

  /** Handing out a context for a request of `x.sendSize` bytes to `x.target`. */
  lemma LedgerAdd(flight: set<nat>, contexts: seq<Context>, c: nat, x: Context, node: nat)
    requires forall d :: d in flight ==> d < |contexts|
    requires c < |contexts| && c !in flight
    ensures Underway(flight + {c}, contexts[c := x], node)
         == Underway(flight, contexts, node).Plus(if x.target == node then Carried(x) else NOTHING)
    ensures |ForNode(flight + {c}, contexts[c := x], node)|
         == |ForNode(flight, contexts, node)| + if x.target == node then 1 else 0
  {
    UnderwayAdd(|contexts|, flight, contexts, c, x, node);
    assert ForNode(flight + {c}, contexts[c := x], node)
        == ForNode(flight, contexts, node) + if x.target == node then {c} else {};
  }

  /** Taking back the context of a completed request. */
  lemma LedgerRemove(flight: set<nat>, contexts: seq<Context>, c: nat, node: nat)
    requires forall d :: d in flight ==> d < |contexts|
    requires c in flight
    ensures Underway(flight, contexts, node)
         == Underway(flight - {c}, contexts, node).Plus(
              if contexts[c].target == node then Carried(contexts[c]) else NOTHING)
    ensures |ForNode(flight, contexts, node)|
         == |ForNode(flight - {c}, contexts, node)| + if contexts[c].target == node then 1 else 0
  {
    LedgerAdd(flight - {c}, contexts, c, contexts[c], node);
    assert flight - {c} + {c} == flight && contexts[c := contexts[c]] == contexts;
  }

  lemma SplitOff(flight: set<nat>, contexts: seq<Context>, v: nat) returns (rest: set<nat>)
    requires forall c :: c in flight ==> c < |contexts|
    ensures rest <= flight && |flight| == |ForNode(flight, contexts, v)| + |rest|
    ensures forall c :: c in rest ==> contexts[c].target != v
    ensures forall u :: u != v ==> ForNode(rest, contexts, u) == ForNode(flight, contexts, u)
  {
    var own := ForNode(flight, contexts, v);
    rest := flight - own;
    assert flight == own + rest;
  }

  /** With at most `depth` requests on the way to each of the connected nodes there are at most
      |nodes| * depth in all. */
  lemma {:induction false} FlightBound(flight: set<nat>, contexts: seq<Context>, nodes: set<nat>, depth: nat)
    requires forall c :: c in flight ==> c < |contexts|
    requires forall c :: c in flight ==> contexts[c].target in nodes
    requires forall v :: v in nodes ==> |ForNode(flight, contexts, v)| <= depth
    ensures |flight| <= |nodes| * depth
    decreases |nodes|
  {
    if nodes == {} {
      assert flight == {};
      assert |nodes| * depth == 0;
    } else {
      var v :| v in nodes;
      var rest := SplitOff(flight, contexts, v);
      var others := nodes - {v};
      FlightBound(rest, contexts, others, depth);
      Distribute(|others|, depth);
    }
  }

  /** While one connected node is below the queue depth, a pool of |nodes| * depth contexts has one left. */
  lemma PoolNotDry(flight: set<nat>, contexts: seq<Context>, nodes: set<nat>, depth: nat, node: nat)
    requires forall c :: c in flight ==> c < |contexts|
    requires forall c :: c in flight ==> contexts[c].target in nodes
    requires forall v :: v in nodes ==> |ForNode(flight, contexts, v)| <= depth
    requires node in nodes && |ForNode(flight, contexts, node)| < depth
    ensures |flight| < |nodes| * depth
  {
    var rest := SplitOff(flight, contexts, node);
    var others := nodes - {node};
    FlightBound(rest, contexts, others, depth);
    Distribute(|others|, depth);
  }

  /** The books: requests in flight with their contexts, requests pending per node and in all, and what was
      reported posted and completed per node. */
  datatype Ledger = Ledger(flight: set<nat>, contexts: seq<Context>, pending: seq<nat>, total: nat,
                           posted: seq<Amount>, completed: seq<Amount>)

  /** A request with context object `c` is posted. */
  function Give(l: Ledger, c: nat, x: Context): Ledger
    requires c < |l.contexts| && x.target < |l.pending| && x.target < |l.posted|
  {
    l.(flight := l.flight + {c},
       contexts := l.contexts[c := x],
       pending := l.pending[x.target := l.pending[x.target] + 1],
       total := l.total + 1,
       posted := l.posted[x.target := l.posted[x.target].Plus(Carried(x))])
  }

  /** The request with context object `c` completes. */
  function Take(l: Ledger, c: nat): Ledger
    requires c in l.flight && c < |l.contexts|
    requires var v := l.contexts[c].target;
             v < |l.pending| && v < |l.completed| && l.pending[v] > 0 && l.total > 0
  {
    var x := l.contexts[c];
    l.(flight := l.flight - {c},
       pending := l.pending[x.target := l.pending[x.target] - 1],
       total := l.total - 1,
       completed := l.completed[x.target := l.completed[x.target].Plus(Carried(x))])
  }

  /** The books balance: the counters count the requests in flight, no queue is overfilled, and what was
      reported posted is what was reported completed plus what is in flight. */
  ghost predicate Balanced(l: Ledger, connected: set<nat>, depth: nat) {
    && |l.pending| == |l.posted| == |l.completed|
    && (forall c :: c in l.flight ==> c < |l.contexts|)
    && (forall c :: c in l.flight ==> l.contexts[c].target in connected && Carries(l.contexts[c]))
    && (forall v :: v in connected ==> v < |l.pending|)
    && l.total == |l.flight|
    && (forall v :: 0 <= v < |l.pending| ==> l.pending[v] == |ForNode(l.flight, l.contexts, v)| <= depth)
    && (forall v :: 0 <= v < |l.pending| ==> l.posted[v] == l.completed[v].Plus(Underway(l.flight, l.contexts, v)))
  }

  predicate Carries(x: Context) {
    x.sendSize < WORD && x.fc < 256 && x.sendSize + x.fc > 0
  }

  lemma BalancedGive(l: Ledger, connected: set<nat>, depth: nat, c: nat, x: Context)
    requires Balanced(l, connected, depth)
    requires c < |l.contexts| && c !in l.flight
    requires Carries(x) && x.target in connected && l.pending[x.target] < depth
    ensures Balanced(Give(l, c, x), connected, depth)
  {
    hide Underway, ForNode, Amount.Plus;
    var after := Give(l, c, x);
    forall v | 0 <= v < |l.pending|
      ensures after.pending[v] == |ForNode(after.flight, after.contexts, v)| <= depth
      ensures after.posted[v] == after.completed[v].Plus(Underway(after.flight, after.contexts, v))
    {
      LedgerAdd(l.flight, l.contexts, c, x, v);
      PlusNothing(Underway(l.flight, l.contexts, v));
      PlusMoves(l.completed[v], Underway(l.flight, l.contexts, v), Carried(x));
    }
  }

  lemma BalancedTake(l: Ledger, connected: set<nat>, depth: nat, c: nat)
    requires Balanced(l, connected, depth) && c in l.flight
    ensures c < |l.contexts| && |l.completed| == |l.pending|
    ensures var x := l.contexts[c];
            && x.target in connected && x.target < |l.pending| && Carries(x)
            && l.pending[x.target] > 0 && l.total > 0
    ensures Balanced(Take(l, c), connected, depth)
  {
    hide Underway, Amount.Plus;
    assert c in ForNode(l.flight, l.contexts, l.contexts[c].target);
    forall v | 0 <= v < |l.pending|
      ensures Take(l, c).pending[v] == |ForNode(Take(l, c).flight, l.contexts, v)|
      ensures l.posted[v] == Take(l, c).completed[v].Plus(Underway(Take(l, c).flight, l.contexts, v))
    {
      LedgerRemove(l.flight, l.contexts, c, v);
      PlusNothing(Underway(l.flight - {c}, l.contexts, v));
      PlusMoves(l.completed[v], Underway(l.flight - {c}, l.contexts, v), Carried(l.contexts[c]));
    }
  }

  lemma BalancedWiden(l: Ledger, connected: set<nat>, more: set<nat>, depth: nat)
    requires Balanced(l, connected, depth) && connected <= more && forall v :: v in more - connected ==> v < |l.pending|
    ensures Balanced(l, more, depth)
  {
    forall v | v in more ensures v < |l.pending| {
      if v !in connected { assert v in more - connected; }
    }
  }

  lemma BalancedNotDry(l: Ledger, connected: set<nat>, depth: nat, node: nat)
    requires Balanced(l, connected, depth) && node in connected && l.pending[node] < depth
    ensures |l.flight| < |connected| * depth
  {
    PoolNotDry(l.flight, l.contexts, connected, depth, node);
  }

  /** The total pending counter is the sum of the per-node counters. */
  function SumBelow(pending: seq<nat>, n: nat): nat
    requires n <= |pending|
  {
    if n == 0 then 0 else pending[n - 1] + SumBelow(pending, n - 1)
  }

  lemma {:induction false} SumOfPending(l: Ledger, connected: set<nat>, depth: nat)
    requires Balanced(l, connected, depth)
    ensures l.total == SumBelow(l.pending, |l.pending|)
  {
    CountBelow(l, connected, depth, |l.pending|);
    assert l.flight == set c | c in l.flight && l.contexts[c].target < |l.pending|;
  }

  lemma {:induction false} CountBelow(l: Ledger, connected: set<nat>, depth: nat, n: nat)
    requires Balanced(l, connected, depth) && n <= |l.pending|
    ensures |set c | c in l.flight && l.contexts[c].target < n| == SumBelow(l.pending, n)
  {
    var below := set c | c in l.flight && l.contexts[c].target < n;
    if n == 0 {
      assert below == {};
    } else {
      CountBelow(l, connected, depth, n - 1);
      var fewer := set c | c in l.flight && l.contexts[c].target < n - 1;
      assert below == fewer + ForNode(l.flight, l.contexts, n - 1);
    }
  }

  /** Any run: requests are posted within the queue depth to connected nodes, and requests in flight complete
      in any order. */
  datatype Event = Posted(c: nat, x: Context) | Completed(c: nat)

  ghost predicate Enabled(l: Ledger, connected: set<nat>, depth: nat, e: Event) {
    match e
    case Posted(c, x) =>
      && c < |l.contexts| && c !in l.flight && Carries(x) && x.target in connected
      && x.target < |l.pending| && x.target < |l.posted| && l.pending[x.target] < depth
    case Completed(c) =>
      && c in l.flight && c < |l.contexts| && l.total > 0
      && l.contexts[c].target < |l.pending| && l.contexts[c].target < |l.completed|
      && l.pending[l.contexts[c].target] > 0
  }

  ghost predicate IsRun(run: seq<Event>, l: Ledger, connected: set<nat>, depth: nat) {
    run == []
    || (Enabled(l, connected, depth, run[0])
        && IsRun(run[1..], After(l, connected, depth, run[0]), connected, depth))
  }

  ghost function After(l: Ledger, connected: set<nat>, depth: nat, e: Event): Ledger
    requires Enabled(l, connected, depth, e)
  {
    match e
    case Posted(c, x) => Give(l, c, x)
    case Completed(c) => Take(l, c)
  }

  ghost function Final(run: seq<Event>, l: Ledger, connected: set<nat>, depth: nat): Ledger
    requires IsRun(run, l, connected, depth)
  {
    if run == [] then l else Final(run[1..], After(l, connected, depth, run[0]), connected, depth)
  }

  /** In every run from a balanced ledger the books balance, nothing exceeds the queue depth, and a pool of
      |connected| * depth contexts never runs dry while a node may still be sent to. */
  lemma {:induction false} RunStaysBalanced(run: seq<Event>, l: Ledger, connected: set<nat>, depth: nat)
    requires Balanced(l, connected, depth) && IsRun(run, l, connected, depth)
    ensures Balanced(Final(run, l, connected, depth), connected, depth)
    ensures |Final(run, l, connected, depth).flight| <= |connected| * depth
  {
    if run == [] {
      FlightBound(l.flight, l.contexts, connected, depth);
    } else {
      match run[0] {
        case Posted(c, x) => BalancedGive(l, connected, depth, c, x);
        case Completed(c) => BalancedTake(l, connected, depth, c);
      }
      RunStaysBalanced(run[1..], After(l, connected, depth, run[0]), connected, depth);
    }
  }
}
