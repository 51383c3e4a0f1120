/** The logger's worker on its queue: what it takes is what the producers put in, in ticket order, and all of it that
    precedes the terminate message is logged before the worker leaves. */
module LogDrain {
  import opened Rings
  import opened Streams
  import opened LogWorkers
  import Queue = MpmcQueue

  /** The queue's answers in the turns of the worker. */
  function AnswersIn(turns: seq<Turn>): (answers: seq<Option<AsyncMsg>>)
    ensures |answers| == |turns| && forall i :: 0 <= i < |turns| ==> answers[i] == turns[i].answer
  {
    seq(|turns|, i requires 0 <= i < |turns| => turns[i].answer)
  }

  lemma {:induction false} TakenIsValues(turns: seq<Turn>)
    ensures Taken(turns) == Queue.Values(AnswersIn(turns))
  {
    if turns != [] {
      TakenIsValues(turns[1..]);
      assert AnswersIn(turns)[1..] == AnswersIn(turns[1..]);
    }
  }

  lemma {:induction false} TakenConcat(a: seq<Turn>, b: seq<Turn>)
    ensures Taken(a + b) == Taken(a) + Taken(b)
  {
    if a == [] {
      assert a + b == b;
    } else {
      ConcatTail(a, b);
      TakenConcat(a[1..], b);
      Associative(if a[0].answer.Some? then [a[0].answer.value] else [], Taken(a[1..]), Taken(b));
    }
  }

  /** The first terminate message has ticket `p`. */
  ghost predicate FirstTerminate(queue: seq<AsyncMsg>, p: nat) {
    p < |queue| && queue[p] == Terminate && forall i :: 0 <= i < p ==> queue[i] != Terminate
  }

  /** What a lone consumer takes in its first turns is the beginning of what was put into the queue. */
  lemma {:induction false} TakenFromQueue(size: nat, threads: nat, w: nat, steps: seq<Queue.Step<AsyncMsg>>,
                                          last: Queue.State<AsyncMsg>, turns: seq<Turn>, used: nat)
    requires size >= 2 && w < threads && Queue.IsRun(Queue.Initial(size, threads), steps)
    requires last == Queue.Final(Queue.Initial(size, threads), steps) && Queue.OnlyConsumer(w, steps)
    requires Queue.Answers(Queue.Initial(size, threads), w, steps) == AnswersIn(turns) && used <= |turns|
    ensures Taken(turns[..used]) <= last.values
  {
    hide Queue.Inv, Queue.Enabled, Queue.Apply, Queue.IsRun, Queue.Final, Queue.Answers, Queue.OnlyConsumer,
         Queue.Initial, Queue.Values, Taken;
    Queue.InitialInv<AsyncMsg>(size, threads);
    Queue.InitialLone<AsyncMsg>(size, threads, w);
    Queue.LoneConsumerReads(Queue.Initial(size, threads), w, steps);
    TakenIsValues(turns);
    assert turns == turns[..used] + turns[used..];
    TakenConcat(turns[..used], turns[used..]);
  }

  /** The worker on the queue, for every run of the queue in which it is the only consumer and `turns` are its turns.
      What it logs are the first values put in, each once and in order. When it leaves, everything whose ticket
      precedes the terminate message has been logged, in ticket order, and flushing all sinks is the last it did. */
  method WorkOnQueue(helper: AsyncLogHelper, turns: seq<Turn>, ghost size: nat, ghost threads: nat, ghost w: nat,
                     ghost steps: seq<Queue.Step<AsyncMsg>>, ghost last: Queue.State<AsyncMsg>)
    returns (used: nat, finished: bool)
    requires helper.calls == [] && !helper.flushRequested && !helper.terminateRequested
    requires size >= 2 && w < threads && Queue.IsRun(Queue.Initial(size, threads), steps)
    requires last == Queue.Final(Queue.Initial(size, threads), steps) && Queue.OnlyConsumer(w, steps)
    requires Queue.Answers(Queue.Initial(size, threads), w, steps) == AnswersIn(turns)
    modifies helper
    ensures used <= |turns| && (!finished ==> used == |turns|)
    ensures exists n: nat :: n <= |last.values| && Logging(helper.calls) == AllCalls(last.values[..n], helper.levels)
                             && forall i :: 0 <= i < |helper.levels| ==>
                                  TextsTo(helper.calls, i) == TextsFor(last.values[..n], helper.levels[i])
    ensures finished ==>
              exists p: nat :: FirstTerminate(last.values, p)
                               && AllCalls(last.values[..p], helper.levels) <= Logging(helper.calls)
                               && forall i :: 0 <= i < |helper.levels| ==>
                                    TextsFor(last.values[..p], helper.levels[i]) <= TextsTo(helper.calls, i)
    ensures finished ==> EndsWith(helper.calls, Flushes(0, |helper.levels|))
    ensures finished ==>
              var n, calls := |helper.levels|, helper.calls;
              n <= |calls| && forall i :: 0 <= i < n ==> calls[|calls| - n + i] == Flush(i)
  {
    hide Queue.IsRun, Queue.Final, Queue.Answers, Queue.OnlyConsumer, Queue.Initial, Taken, Logging, AllCalls,
         EndsWith, Flushes, TextsTo, TextsFor;
    used, finished := helper.WorkerLoop(turns);
    TakenFromQueue(size, threads, w, steps, last, turns, used);
    ghost var taken := Taken(turns[..used]);
    assert taken == last.values[..|taken|];
    if finished {
      ghost var p := TerminateAt(last.values, |taken|);
      DrainedBeforeTerminate(last.values, taken, p, helper.levels);
      forall i | 0 <= i < |helper.levels|
        ensures TextsFor(last.values[..p], helper.levels[i]) <= TextsTo(helper.calls, i)
      {
        TextsForPrefix(last.values[..p], taken, helper.levels[i]);
      }
    }
  }

  /** The ticket of the first terminate message. */
  ghost function TerminateAt(queue: seq<AsyncMsg>, n: nat): (p: nat)
    requires n <= |queue| && Terminate in queue[..n]
    ensures p < n && FirstTerminate(queue, p)
  {
    if queue[0] == Terminate then 0
    else
      assert queue[..n][1..] == queue[1..][..n - 1];
      var p := TerminateAt(queue[1..], n - 1);
      assert forall i :: 0 < i <= p ==> queue[i] == queue[1..][i - 1];
      p + 1
  }
}
